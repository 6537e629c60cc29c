/**
 The offboarding sweep of `upload.service.ts`: the active uploads of a user or an organization are
 read in keyset pages, their objects are deleted with bounded concurrency, and finally all rows are
 soft-deleted. Other code inserts, changes and removes rows between any two reads: the `i`-th page
 is read from its own snapshot `tables(i)` of the uploads table.
 */
module UploadSweep {
  import opened Prelude

  const BATCH_SIZE: nat := 500
  const CONCURRENCY: nat := 10

  datatype Owner = User(id: nat) | Organization(id: nat)

  datatype Row = Row(id: nat, key: string, user: nat, organization: Option<nat>, deleted: bool)

  /** The table in primary-key order. */
  type Table = seq<Row>

  predicate Ordered(rows: seq<Row>) {
    forall i, j :: 0 <= i < j < |rows| ==> rows[i].id < rows[j].id
  }

  predicate Owns(owner: Owner, r: Row) {
    match owner
    case User(id) => r.user == id
    case Organization(id) => r.organization == Some(id)
  }

  predicate Active(owner: Owner, r: Row) {
    Owns(owner, r) && !r.deleted
  }

  // ----- One page -----

  /** The active rows past the cursor. */
  function ActiveAfter(table: Table, owner: Owner, after: nat): seq<Row> {
    if table == [] then []
    else
      var last := table[|table| - 1];
      ActiveAfter(table[..|table| - 1], owner, after) + if Active(owner, last) && last.id > after then [last] else []
  }

  /** `findActiveBy...IdAfter`. */
  function Page(table: Table, owner: Owner, after: nat): seq<Row> {
    var rows := ActiveAfter(table, owner, after);
    if |rows| <= BATCH_SIZE then rows else rows[..BATCH_SIZE]
  }

  lemma {:induction false} ActiveAfterIs(table: Table, owner: Owner, after: nat)
    requires Ordered(table)
    ensures Ordered(ActiveAfter(table, owner, after))
    ensures forall r :: r in ActiveAfter(table, owner, after) <==> r in table && Active(owner, r) && r.id > after
  {
    if table != [] {
      var most, last := table[..|table| - 1], table[|table| - 1];
      ActiveAfterIs(most, owner, after);
      assert table == most + [last];
      assert forall r :: r in most ==> r.id < last.id;
    }
  }

  /** A full page decides about ids up to its last row, a short one about all ids. */
  predicate InRange(page: seq<Row>, id: nat) {
    |page| < BATCH_SIZE || id <= page[|page| - 1].id
  }

  /** A page holds exactly the active rows past the cursor up to its last row, or all of them when
      it is short. */
  lemma PageIs(table: Table, owner: Owner, after: nat)
    requires Ordered(table)
    ensures var page := Page(table, owner, after);
            && |page| <= BATCH_SIZE && Ordered(page)
            && (forall r :: r in page ==> r in table && Active(owner, r) && r.id > after)
            && (forall r :: r in table && Active(owner, r) && r.id > after && InRange(page, r.id) ==> r in page)
  {
    ActiveAfterIs(table, owner, after);
    var rows, page := ActiveAfter(table, owner, after), Page(table, owner, after);
    if |page| == BATCH_SIZE {
      forall r | r in table && Active(owner, r) && r.id > after && r.id <= page[|page| - 1].id ensures r in page {
        var k :| 0 <= k < |rows| && rows[k] == r;
        assert page[|page| - 1] == rows[BATCH_SIZE - 1];
        assert k < BATCH_SIZE;
        assert page[k] == r;
      }
    }
  }

  // ----- The sweep -----

  /** What the `i`-th read returns past a cursor. */
  type Pager = (nat, nat) -> seq<Row>

  /** The `i`-th page is read from the snapshot `tables(i)`. */
  function PagerOf(tables: nat -> Table, owner: Owner): Pager {
    (i: nat, after: nat) => Page(tables(i), owner, after)
  }

  ghost predicate Snapshots(tables: nat -> Table) {
    forall i: nat :: Ordered(tables(i))
  }

  /** The cursor after `n` pages. */
  function CursorAfter(pager: Pager, n: nat): nat {
    if n == 0 then 0
    else
      var page := pager(n - 1, CursorAfter(pager, n - 1));
      if page == [] then CursorAfter(pager, n - 1) else page[|page| - 1].id
  }

  function PageAt(pager: Pager, i: nat): seq<Row> {
    pager(i, CursorAfter(pager, i))
  }

  predicate ShortPage(pager: Pager, n: nat) {
    |PageAt(pager, n)| < BATCH_SIZE
  }

  /** The sweep stops after page `n`. */
  predicate EndsAt(pager: Pager, n: nat) {
    ShortPage(pager, n) && forall i: nat :: i < n ==> !ShortPage(pager, i)
  }

  /** Every row whose key the first `n` pages pass to deletion, in order. */
  function Swept(pager: Pager, n: nat): seq<Row> {
    if n == 0 then [] else Swept(pager, n - 1) + PageAt(pager, n - 1)
  }

  /** The page, from the `i`-th up to the `n`-th, whose range covers row `id`. */
  function Covering(pager: Pager, n: nat, i: nat, id: nat): nat
    decreases n - i
  {
    if i >= n || InRange(PageAt(pager, i), id) then i else Covering(pager, n, i + 1, id)
  }

  predicate Past(rows: seq<Row>, after: nat) {
    forall r :: r in rows ==> after < r.id
  }

  predicate UpTo(rows: seq<Row>, last: nat) {
    forall r :: r in rows ==> r.id <= last
  }

  ghost predicate Ascending(pager: Pager) {
    forall i: nat, after: nat :: Ordered(pager(i, after)) && Past(pager(i, after), after)
  }

  lemma PagerAscends(tables: nat -> Table, owner: Owner)
    requires Snapshots(tables)
    ensures Ascending(PagerOf(tables, owner))
  {
    forall i: nat, after: nat
      ensures Ordered(Page(tables(i), owner, after)) && Past(Page(tables(i), owner, after), after)
    {
      PageIs(tables(i), owner, after);
    }
  }

  lemma OrderedConcat(a: seq<Row>, b: seq<Row>, last: nat)
    requires Ordered(a) && Ordered(b) && UpTo(a, last) && Past(b, last)
    ensures Ordered(a + b)
  {
    var c := a + b;
    forall i, j | 0 <= i < j < |c| ensures c[i].id < c[j].id {
      if i < |a| <= j {
        assert c[i] in a && c[j] in b;
      }
    }
  }

  lemma CursorStep(pager: Pager, n: nat)
    requires Ascending(pager)
    ensures CursorAfter(pager, n) <= CursorAfter(pager, n + 1)
    ensures UpTo(PageAt(pager, n), CursorAfter(pager, n + 1))
    ensures Ordered(PageAt(pager, n)) && Past(PageAt(pager, n), CursorAfter(pager, n))
  {
    var page := PageAt(pager, n);
    if page != [] { assert page[|page| - 1] in page; }
  }

  lemma {:induction false} PagesAscend(pager: Pager, n: nat)
    requires Ascending(pager)
    ensures Ordered(Swept(pager, n)) && UpTo(Swept(pager, n), CursorAfter(pager, n))
  {
    if n != 0 {
      var m: nat := n - 1;
      PagesAscend(pager, m);
      CursorStep(pager, m);
      OrderedConcat(Swept(pager, m), PageAt(pager, m), CursorAfter(pager, m));
    }
  }

  /** Ids increase strictly across pages, whatever changes between them, so nothing is passed twice. */
  lemma SweepAscends(tables: nat -> Table, owner: Owner, n: nat)
    requires Snapshots(tables)
    ensures Ordered(Swept(PagerOf(tables, owner), n))
  {
    PagerAscends(tables, owner);
    PagesAscend(PagerOf(tables, owner), n);
  }

  lemma {:induction false} CursorMonotone(pager: Pager, i: nat, j: nat)
    requires Ascending(pager) && i <= j
    ensures CursorAfter(pager, i) <= CursorAfter(pager, j)
    decreases j
  {
    if i != j {
      var m: nat := j - 1;
      CursorMonotone(pager, i, m);
      CursorStep(pager, m);
    }
  }

  lemma {:induction false} SweptHas(pager: Pager, n: nat, i: nat, r: Row)
    requires i < n && r in PageAt(pager, i)
    ensures r in Swept(pager, n)
    decreases n
  {
    var m: nat := n - 1;
    if i != m { SweptHas(pager, m, i, r); }
  }

  lemma {:induction false} SweptFrom(pager: Pager, n: nat, r: Row) returns (i: nat)
    requires r in Swept(pager, n)
    ensures i < n && r in PageAt(pager, i)
  {
    var m: nat := n - 1;
    if r in PageAt(pager, m) { i := m; } else { i := SweptFrom(pager, m, r); }
  }

  lemma PageDecides(table: Table, owner: Owner, after: nat, r: Row)
    requires Ordered(table) && after < r.id
    ensures var page := Page(table, owner, after);
            && (InRange(page, r.id) ==> (r in page <==> Active(owner, r) && r in table))
            && (!InRange(page, r.id) ==> r !in page)
  {
    PageIs(table, owner, after);
    var page := Page(table, owner, after);
    if r in page && |page| == BATCH_SIZE {
      var k :| 0 <= k < |page| && page[k] == r;
      assert page[k].id <= page[|page| - 1].id;
    }
  }

  /** The covering page decides: earlier pages end before the row, later ones start past it. */
  lemma {:induction false} CoveringIs(pager: Pager, n: nat, i: nat, id: nat)
    requires EndsAt(pager, n) && i <= n && CursorAfter(pager, i) < id
    ensures var j := Covering(pager, n, i, id);
            i <= j <= n && CursorAfter(pager, j) < id && InRange(PageAt(pager, j), id)
    decreases n - i
  {
    if i < n && !InRange(PageAt(pager, i), id) {
      CoveringIs(pager, n, i + 1, id);
    } else if i == n {
      assert ShortPage(pager, n);
    }
  }

  /** A page before the covering one ends before the row. */
  lemma EarlierPage(pager: Pager, i: nat, j: nat, r: Row)
    requires Ascending(pager) && i < j && CursorAfter(pager, j) < r.id
    ensures r !in PageAt(pager, i)
  {
    CursorStep(pager, i);
    CursorMonotone(pager, i + 1, j);
  }

  /** A page after the covering one, which was full, starts past the row. */
  lemma LaterPage(pager: Pager, i: nat, j: nat, r: Row)
    requires Ascending(pager) && j < i && !ShortPage(pager, j) && InRange(PageAt(pager, j), r.id)
    ensures r !in PageAt(pager, i)
  {
    CursorStep(pager, i);
    assert r.id <= CursorAfter(pager, j + 1);
    CursorMonotone(pager, j + 1, i);
  }

  lemma OtherPage(pager: Pager, n: nat, i: nat, j: nat, r: Row)
    requires Ascending(pager) && EndsAt(pager, n) && i <= n && j <= n && i != j
    requires CursorAfter(pager, j) < r.id && InRange(PageAt(pager, j), r.id)
    ensures r !in PageAt(pager, i)
  {
    if i < j {
      EarlierPage(pager, i, j, r);
    } else {
      assert !ShortPage(pager, j);
      LaterPage(pager, i, j, r);
    }
  }

  /** Among all pages, only the covering one can hold the row. */
  lemma SweptByCovering(pager: Pager, n: nat, j: nat, r: Row)
    requires Ascending(pager) && EndsAt(pager, n) && j <= n
    requires CursorAfter(pager, j) < r.id && InRange(PageAt(pager, j), r.id)
    ensures r in Swept(pager, n + 1) <==> r in PageAt(pager, j)
  {
    if r in PageAt(pager, j) {
      SweptHas(pager, n + 1, j, r);
    } else if r in Swept(pager, n + 1) {
      var i := SweptFrom(pager, n + 1, r);
      OtherPage(pager, n, i, j, r);
    }
  }

  /** A row is swept exactly when it is active in the snapshot that covers it, whatever is inserted,
      changed or removed in the others. */
  lemma SweptExactlyWhenCovered(tables: nat -> Table, owner: Owner, n: nat, r: Row)
    requires Snapshots(tables) && EndsAt(PagerOf(tables, owner), n) && 0 < r.id
    ensures r in Swept(PagerOf(tables, owner), n + 1) <==>
            Active(owner, r) && r in tables(Covering(PagerOf(tables, owner), n, 0, r.id))
  {
    var pager := PagerOf(tables, owner);
    var j := Covering(pager, n, 0, r.id);
    PagerAscends(tables, owner);
    CoveringIs(pager, n, 0, r.id);
    SweptByCovering(pager, n, j, r);
    PageDecides(tables(j), owner, CursorAfter(pager, j), r);
  }

  predicate Once(rows: seq<Row>, r: Row) {
    exists k :: 0 <= k < |rows| && rows[k] == r && forall j :: 0 <= j < |rows| && j != k ==> rows[j].id != r.id
  }

  /** A row that stays active and unchanged throughout is passed to deletion exactly once. */
  lemma PersistentRowSweptOnce(tables: nat -> Table, owner: Owner, n: nat, r: Row)
    requires Snapshots(tables) && EndsAt(PagerOf(tables, owner), n)
    requires r.id > 0 && Active(owner, r) && forall i: nat :: i <= n ==> r in tables(i)
    ensures Once(Swept(PagerOf(tables, owner), n + 1), r)
  {
    var pager := PagerOf(tables, owner);
    var j := Covering(pager, n, 0, r.id);
    assert j <= n by { CoveringIs(pager, n, 0, r.id); }
    assert r in tables(j);
    assert r in Swept(pager, n + 1) by { SweptExactlyWhenCovered(tables, owner, n, r); }
    SweepAscends(tables, owner, n + 1);
    OrderedOnce(Swept(pager, n + 1), r);
  }

  lemma OrderedOnce(rows: seq<Row>, r: Row)
    requires Ordered(rows) && r in rows
    ensures Once(rows, r)
  {
    var k :| 0 <= k < |rows| && rows[k] == r;
    forall j | 0 <= j < |rows| && j != k ensures rows[j].id != r.id {
      if j < k { assert rows[j].id < rows[k].id; } else { assert rows[k].id < rows[j].id; }
    }
  }

  /** The key of `r` was passed to deletion, or would be by a page over `rows`. */
  predicate KeyIn(rows: seq<Row>, owner: Owner, r: Row) {
    exists q :: q in rows && Active(owner, q) && q.id == r.id && q.key == r.key
  }

  /** A row that the final soft-delete hides keeps its object undeleted exactly when the snapshot
      covering it did not hold that row active under that key. */
  lemma HiddenWithObjectExactlyWhen(tables: nat -> Table, owner: Owner, n: nat, last: Table, r: Row)
    requires Snapshots(tables) && EndsAt(PagerOf(tables, owner), n) && r in last && Active(owner, r) && 0 < r.id
    ensures r.(deleted := true) in SoftDeleted(owner, last)
    ensures !KeyIn(Swept(PagerOf(tables, owner), n + 1), owner, r) <==>
            !KeyIn(tables(Covering(PagerOf(tables, owner), n, 0, r.id)), owner, r)
  {
    var k :| 0 <= k < |last| && last[k] == r;
    SoftDeletedAt(owner, last, k);
    assert SoftDeleted(owner, last)[k] == r.(deleted := true);
    var swept, covering := Swept(PagerOf(tables, owner), n + 1), tables(Covering(PagerOf(tables, owner), n, 0, r.id));
    forall q: Row | q.id == r.id ensures q in swept <==> Active(owner, q) && q in covering {
      SweptExactlyWhenCovered(tables, owner, n, q);
    }
  }

  /** Row `r` was not active under its key in every snapshot the sweep read. */
  ghost predicate Late(tables: nat -> Table, owner: Owner, n: nat, r: Row) {
    Active(owner, r) && exists i: nat :: i <= n && !KeyIn(tables(i), owner, r)
  }

  ghost function LateIds(tables: nat -> Table, owner: Owner, n: nat, last: Table): set<nat> {
    set r | r in last && Late(tables, owner, n, r) :: r.id
  }

  /** Every row that the final soft-delete hides had its key passed to deletion. */
  predicate AllPassed(pager: Pager, owner: Owner, n: nat, last: Table) {
    forall r :: r in last && Active(owner, r) ==> KeyIn(Swept(pager, n + 1), owner, r)
  }

  /** A sweep that ends at page `n`, and the table its soft-delete finds. Serial ids start at 1. */
  ghost predicate WholeSweep(tables: nat -> Table, owner: Owner, n: nat, last: Table) {
    && Snapshots(tables) && EndsAt(PagerOf(tables, owner), n)
    && Ordered(last) && forall r :: r in last ==> 0 < r.id
  }

  lemma NotLateIsPassed(tables: nat -> Table, owner: Owner, n: nat, last: Table, r: Row)
    requires WholeSweep(tables, owner, n, last) && r in last && Active(owner, r) && !Late(tables, owner, n, r)
    ensures KeyIn(Swept(PagerOf(tables, owner), n + 1), owner, r)
  {
    var pager := PagerOf(tables, owner);
    var j := Covering(pager, n, 0, r.id);
    assert j <= n by { CoveringIs(pager, n, 0, r.id); }
    HiddenWithObjectExactlyWhen(tables, owner, n, last, r);
  }

  lemma NoneLateAllPassed(tables: nat -> Table, owner: Owner, n: nat, last: Table)
    requires WholeSweep(tables, owner, n, last) && LateIds(tables, owner, n, last) == {}
    ensures AllPassed(PagerOf(tables, owner), owner, n, last)
  {
    forall r | r in last && Active(owner, r) ensures KeyIn(Swept(PagerOf(tables, owner), n + 1), owner, r) {
      assert Late(tables, owner, n, r) ==> r.id in LateIds(tables, owner, n, last);
      NotLateIsPassed(tables, owner, n, last, r);
    }
  }

  /** A table that holds one row of the owner, under `key`, throughout. */
  ghost function OneRow(owner: Owner, key: string): nat -> Table {
    (i: nat) => [RowOf(owner, 1).(key := key)]
  }

  /** A confirmation that moves a row from its pending key to its final one after its page was read:
      the sweep deletes the pending object, the soft-delete hides the row, and the published object
      stays. */
  lemma ConfirmedMeanwhileKeepsObject(owner: Owner, pending: string, final: string)
    requires pending != final
    ensures var tables, last := OneRow(owner, pending), [RowOf(owner, 1).(key := final)];
            && WholeSweep(tables, owner, 0, last) && LateIds(tables, owner, 0, last) == {1}
            && !AllPassed(PagerOf(tables, owner), owner, 0, last)
  {
    OneRowSwept(owner, pending);
    OneRowLate(owner, pending, final);
    var last := [RowOf(owner, 1).(key := final)];
    assert last[0] in last && Active(owner, last[0]);
    assert !KeyIn([RowOf(owner, 1).(key := pending)], owner, last[0]);
  }

  lemma OneRowLate(owner: Owner, pending: string, final: string)
    requires pending != final
    ensures LateIds(OneRow(owner, pending), owner, 0, [RowOf(owner, 1).(key := final)]) == {1}
  {
    var tables, r := OneRow(owner, pending), RowOf(owner, 1).(key := final);
    assert !KeyIn(tables(0), owner, r);
    assert Late(tables, owner, 0, r) && r in [r] && r.id == 1;
  }

  lemma OneRowSwept(owner: Owner, key: string)
    ensures var pager := PagerOf(OneRow(owner, key), owner);
            EndsAt(pager, 0) && Swept(pager, 1) == [RowOf(owner, 1).(key := key)]
  {
    var pager := PagerOf(OneRow(owner, key), owner);
    OneRowPage(owner, key);
    assert Swept(pager, 0) == [] && Swept(pager, 1) == [] + PageAt(pager, 0);
  }

  lemma OneRowPage(owner: Owner, key: string)
    ensures Page(OneRow(owner, key)(0), owner, 0) == [RowOf(owner, 1).(key := key)]
  {
    var table := OneRow(owner, key)(0);
    assert table[..0] == [] && ActiveAfter(table[..0], owner, 0) == [];
    assert Active(owner, table[0]);
  }

  /** Every row that the soft-delete hides had its key passed to deletion, over all sweeps with at most
      `k` late rows, exactly when `k` is zero. */
  lemma AllPassedExactlyWhenNoneLate(owner: Owner, k: nat)
    ensures (forall tables, n: nat, last ::
               WholeSweep(tables, owner, n, last) && |LateIds(tables, owner, n, last)| <= k ==>
                 AllPassed(PagerOf(tables, owner), owner, n, last))
            <==> k == 0
  {
    if k == 0 {
      forall tables, n: nat, last | WholeSweep(tables, owner, n, last) && |LateIds(tables, owner, n, last)| <= k
        ensures AllPassed(PagerOf(tables, owner), owner, n, last)
      {
        NoneLateAllPassed(tables, owner, n, last);
      }
    } else {
      ConfirmedMeanwhileKeepsObject(owner, "pending/x", "x");
      assert |{1}| == 1;
    }
  }

  // ----- Termination -----

  function Ids(rows: seq<Row>): set<nat> {
    set r | r in rows :: r.id
  }

  /** The owner's active rows that the next page has still to read. */
  function Backlog(tables: nat -> Table, owner: Owner, i: nat): seq<Row> {
    ActiveAfter(tables(i), owner, CursorAfter(PagerOf(tables, owner), i))
  }

  /** The ids that are active past the cursor at read `i + 1` and were not at read `i`. */
  function Joining(tables: nat -> Table, owner: Owner, i: nat): set<nat> {
    Ids(Backlog(tables, owner, i + 1)) - Ids(ActiveAfter(tables(i), owner, CursorAfter(PagerOf(tables, owner), i + 1)))
  }

  ghost predicate JoinAtMost(tables: nat -> Table, owner: Owner, k: nat) {
    forall i: nat :: |Joining(tables, owner, i)| <= k
  }

  lemma {:induction false} IdsSize(rows: seq<Row>)
    requires Ordered(rows)
    ensures |Ids(rows)| == |rows|
  {
    if rows != [] {
      var most, last := rows[..|rows| - 1], rows[|rows| - 1];
      IdsSize(most);
      assert rows == most + [last];
      assert Ids(rows) == Ids(most) + {last.id};
      assert last.id !in Ids(most);
    }
  }

  /** A full page takes 500 rows off the backlog. */
  lemma FullPageTakes(table: Table, owner: Owner, after: nat, last: nat)
    requires Ordered(table) && |Page(table, owner, after)| == BATCH_SIZE
    requires last == Page(table, owner, after)[BATCH_SIZE - 1].id
    ensures |ActiveAfter(table, owner, last)| + BATCH_SIZE <= |ActiveAfter(table, owner, after)|
  {
    var rows, rest := ActiveAfter(table, owner, after), ActiveAfter(table, owner, last);
    var page := Page(table, owner, after);
    ActiveAfterIs(table, owner, after);
    ActiveAfterIs(table, owner, last);
    PageIs(table, owner, after);
    assert page == rows[..BATCH_SIZE];
    IdsSize(rows);
    IdsSize(rest);
    IdsSize(page);
    assert Ids(rest) !! Ids(page) && Ids(rest) <= Ids(rows) && Ids(page) <= Ids(rows);
    SubsetSize(Ids(rest) + Ids(page), Ids(rows));
  }

  lemma BacklogStep(tables: nat -> Table, owner: Owner, i: nat)
    requires Snapshots(tables) && !ShortPage(PagerOf(tables, owner), i)
    ensures |Backlog(tables, owner, i + 1)| + BATCH_SIZE <= |Backlog(tables, owner, i)| + |Joining(tables, owner, i)|
  {
    var after, last := CursorAfter(PagerOf(tables, owner), i), CursorAfter(PagerOf(tables, owner), i + 1);
    PageIs(tables(i), owner, after);
    FullPageTakes(tables(i), owner, after, last);
    JoinedSize(ActiveAfter(tables(i), owner, last), tables(i), tables(i + 1), owner, last);
  }

  lemma JoinedSize(rest: seq<Row>, table: Table, next: Table, owner: Owner, after: nat)
    requires Ordered(table) && Ordered(next) && rest == ActiveAfter(table, owner, after)
    ensures var rows := ActiveAfter(next, owner, after); |rows| <= |rest| + |Ids(rows) - Ids(rest)|
  {
    var rows := ActiveAfter(next, owner, after);
    ActiveAfterIs(table, owner, after);
    ActiveAfterIs(next, owner, after);
    IdsSize(rest);
    IdsSize(rows);
    SubsetSize(Ids(rows), Ids(rest) + (Ids(rows) - Ids(rest)));
  }

  lemma {:induction false} BacklogShrinks(tables: nat -> Table, owner: Owner, k: nat, n: nat)
    requires Snapshots(tables) && JoinAtMost(tables, owner, k) && k < BATCH_SIZE
    requires forall i: nat :: i < n ==> !ShortPage(PagerOf(tables, owner), i)
    ensures |Backlog(tables, owner, n)| + n * (BATCH_SIZE - k) <= |Backlog(tables, owner, 0)|
  {
    if n != 0 {
      var m: nat := n - 1;
      BacklogShrinks(tables, owner, k, m);
      OneStep(tables, owner, k, m);
      assert n * (BATCH_SIZE - k) == m * (BATCH_SIZE - k) + (BATCH_SIZE - k);
    }
  }

  lemma OneStep(tables: nat -> Table, owner: Owner, k: nat, n: nat)
    requires Snapshots(tables) && JoinAtMost(tables, owner, k) && k < BATCH_SIZE
    requires !ShortPage(PagerOf(tables, owner), n)
    ensures |Backlog(tables, owner, n + 1)| + (BATCH_SIZE - k) <= |Backlog(tables, owner, n)|
  {
    BacklogStep(tables, owner, n);
    assert |Joining(tables, owner, n)| <= k;
  }

  /** When fewer than a page of rows join between reads, the sweep ends, after no more full pages than
      the rows it found at first. */
  lemma {:induction false} SweepEndsFrom(tables: nat -> Table, owner: Owner, k: nat, m: nat) returns (n: nat)
    requires Snapshots(tables) && JoinAtMost(tables, owner, k) && k < BATCH_SIZE
    requires forall i: nat :: i < m ==> !ShortPage(PagerOf(tables, owner), i)
    ensures EndsAt(PagerOf(tables, owner), n)
    decreases |Backlog(tables, owner, m)|
  {
    if ShortPage(PagerOf(tables, owner), m) {
      n := m;
    } else {
      OneStep(tables, owner, k, m);
      n := SweepEndsFrom(tables, owner, k, m + 1);
    }
  }

  lemma SweepEnds(tables: nat -> Table, owner: Owner, k: nat) returns (n: nat)
    requires Snapshots(tables) && JoinAtMost(tables, owner, k) && k < BATCH_SIZE
    ensures EndsAt(PagerOf(tables, owner), n) && n * (BATCH_SIZE - k) <= |Backlog(tables, owner, 0)|
  {
    n := SweepEndsFrom(tables, owner, k, 0);
    BacklogShrinks(tables, owner, k, n);
  }

  function RowOf(owner: Owner, id: nat): Row {
    match owner
    case User(user) => Row(id, "", user, None, false)
    case Organization(organization) => Row(id, "", 0, Some(organization), false)
  }

  /** `n` active rows of one owner. */
  function Numbered(owner: Owner, n: nat): Table {
    if n == 0 then [] else Numbered(owner, n - 1) + [RowOf(owner, n)]
  }

  lemma {:induction false} NumberedIds(owner: Owner, n: nat)
    ensures |Numbered(owner, n)| == n && Ordered(Numbered(owner, n))
    ensures forall k :: 0 <= k < n ==> Numbered(owner, n)[k].id == k + 1
  {
    if n > 0 { NumberedIds(owner, n - 1); }
  }

  lemma NumberedGrows(owner: Owner, n: nat, after: nat)
    requires n > 0
    ensures ActiveAfter(Numbered(owner, n), owner, after) ==
            ActiveAfter(Numbered(owner, n - 1), owner, after) + if n > after then [RowOf(owner, n)] else []
  {
    var table := Numbered(owner, n);
    assert table[..|table| - 1] == Numbered(owner, n - 1) && table[|table| - 1] == RowOf(owner, n);
    assert Active(owner, RowOf(owner, n)) && RowOf(owner, n).id == n;
  }

  lemma {:induction false} NumberedAfter(owner: Owner, n: nat, after: nat)
    ensures var rows := ActiveAfter(Numbered(owner, n), owner, after);
            && |rows| == (if after < n then n - after else 0)
            && forall k :: 0 <= k < |rows| ==> rows[k].id == after + k + 1
  {
    if n != 0 {
      NumberedAfter(owner, n - 1, after);
      NumberedGrows(owner, n, after);
      assert RowOf(owner, n).id == n;
    }
  }

  /** The table grows by a full page before every read. */
  function Growing(owner: Owner): nat -> Table {
    (i: nat) => Numbered(owner, (i + 1) * BATCH_SIZE)
  }

  lemma FullPage(owner: Owner, n: nat)
    ensures var page := Page(Growing(owner)(n), owner, n * BATCH_SIZE);
            |page| == BATCH_SIZE && page[|page| - 1].id == (n + 1) * BATCH_SIZE
  {
    NumberedAfter(owner, (n + 1) * BATCH_SIZE, n * BATCH_SIZE);
  }

  lemma {:induction false} GrowingCursor(owner: Owner, n: nat)
    ensures CursorAfter(PagerOf(Growing(owner), owner), n) == n * BATCH_SIZE
  {
    if n != 0 {
      var m: nat := n - 1;
      GrowingCursor(owner, m);
      FullPage(owner, m);
    }
  }

  /** Inserts that keep pace with the sweep keep it from ever ending. */
  lemma EndlessInserts(owner: Owner, n: nat)
    ensures !ShortPage(PagerOf(Growing(owner), owner), n)
  {
    GrowingCursor(owner, n);
    FullPage(owner, n);
  }

  lemma GrowingJoins(owner: Owner, i: nat)
    ensures |Joining(Growing(owner), owner, i)| <= BATCH_SIZE
  {
    GrowingCursor(owner, i + 1);
    var next := Backlog(Growing(owner), owner, i + 1);
    NumberedAfter(owner, (i + 2) * BATCH_SIZE, (i + 1) * BATCH_SIZE);
    NumberedIds(owner, (i + 2) * BATCH_SIZE);
    ActiveAfterIs(Growing(owner)(i + 1), owner, (i + 1) * BATCH_SIZE);
    IdsSize(next);
    SubsetSize(Joining(Growing(owner), owner, i), Ids(next));
  }

  ghost predicate Ends(tables: nat -> Table, owner: Owner) {
    exists n: nat :: EndsAt(PagerOf(tables, owner), n)
  }

  /** Every sweep of an owner ends, on all tables that gain at most `k` active rows past the cursor
      between two reads, exactly when `k` is less than a page. */
  lemma SweepEndsExactlyWhen(owner: Owner, k: nat)
    ensures (forall tables :: Snapshots(tables) && JoinAtMost(tables, owner, k) ==> Ends(tables, owner))
            <==> k < BATCH_SIZE
  {
    if k < BATCH_SIZE {
      forall tables | Snapshots(tables) && JoinAtMost(tables, owner, k) ensures Ends(tables, owner) {
        var n := SweepEnds(tables, owner, k);
      }
    } else {
      var tables := Growing(owner);
      forall i: nat ensures Ordered(tables(i)) { NumberedIds(owner, (i + 1) * BATCH_SIZE); }
      forall i: nat ensures |Joining(tables, owner, i)| <= k { GrowingJoins(owner, i); }
      forall n: nat ensures !EndsAt(PagerOf(tables, owner), n) { EndlessInserts(owner, n); }
      assert Snapshots(tables) && JoinAtMost(tables, owner, k) && !Ends(tables, owner);
    }
  }

  // ----- The sweep as it runs -----

  function Keys(rows: seq<Row>): seq<string> {
    if rows == [] then [] else Keys(rows[..|rows| - 1]) + [rows[|rows| - 1].key]
  }

  lemma {:induction false} KeysConcat(a: seq<Row>, b: seq<Row>)
    ensures Keys(a + b) == Keys(a) + Keys(b)
  {
    if b == [] {
      assert a + b == a;
    } else {
      KeysConcat(a, b[..|b| - 1]);
      assert (a + b)[..|a + b| - 1] == a + b[..|b| - 1];
    }
  }

  /** One key for each row, in order. */
  lemma {:induction false} KeysAt(rows: seq<Row>)
    ensures |Keys(rows)| == |rows|
    ensures forall i :: 0 <= i < |rows| ==> Keys(rows)[i] == rows[i].key
  {
    if rows != [] { KeysAt(rows[..|rows| - 1]); }
  }

  /** Row `r` belongs to the owner and is not deleted, read off its columns. */
  predicate Live(owner: Owner, r: Row) {
    && !r.deleted
    && (owner.User? ==> r.user == owner.id)
    && (owner.Organization? ==> r.organization == Some(owner.id))
  }

  /** Row `r` carries `key` and is live in the snapshot that covers it. */
  ghost predicate Carries(tables: nat -> Table, owner: Owner, n: nat, r: Row, key: string) {
    && 0 < r.id && r.key == key && Live(owner, r)
    && r in tables(Covering(PagerOf(tables, owner), n, 0, r.id))
  }

  /** The keys passed to deletion are exactly those carried by rows that are live in the snapshot
      covering them. */
  lemma DeletedKeysExactly(tables: nat -> Table, owner: Owner, n: nat, key: string)
    requires Snapshots(tables) && EndsAt(PagerOf(tables, owner), n)
    ensures key in Keys(Swept(PagerOf(tables, owner), n + 1)) <==>
            exists r :: Carries(tables, owner, n, r, key)
  {
    var swept := Swept(PagerOf(tables, owner), n + 1);
    KeysAt(swept);
    if key in Keys(swept) {
      var k :| 0 <= k < |swept| && Keys(swept)[k] == key;
      SweptAreLater(tables, owner, n + 1, swept[k]);
      SweptExactlyWhenCovered(tables, owner, n, swept[k]);
      assert Carries(tables, owner, n, swept[k], key);
    }
    if r :| Carries(tables, owner, n, r, key) {
      SweptExactlyWhenCovered(tables, owner, n, r);
      var k :| 0 <= k < |swept| && swept[k] == r;
      assert Keys(swept)[k] == key;
    }
  }

  lemma SweptAreLater(tables: nat -> Table, owner: Owner, n: nat, r: Row)
    requires Snapshots(tables) && r in Swept(PagerOf(tables, owner), n)
    ensures 0 < r.id
  {
    var i := SweptFrom(PagerOf(tables, owner), n, r);
    PagerAscends(tables, owner);
    CursorStep(PagerOf(tables, owner), i);
  }

  /** The key of a row that is live and unchanged in every snapshot is passed to deletion, at the one
      position that stems from that row. */
  lemma PersistentKeyDeleted(tables: nat -> Table, owner: Owner, n: nat, r: Row) returns (k: nat)
    requires Snapshots(tables) && EndsAt(PagerOf(tables, owner), n)
    requires r.id > 0 && Live(owner, r) && forall i: nat :: i <= n ==> r in tables(i)
    ensures var swept := Swept(PagerOf(tables, owner), n + 1);
            && |Keys(swept)| == |swept| && k < |swept| && swept[k] == r && Keys(swept)[k] == r.key
            && forall j :: 0 <= j < |swept| && j != k ==> swept[j].id != r.id
  {
    var swept := Swept(PagerOf(tables, owner), n + 1);
    PersistentRowSweptOnce(tables, owner, n, r);
    KeysAt(swept);
    k :| k < |swept| && swept[k] == r && forall j :: 0 <= j < |swept| && j != k ==> swept[j].id != r.id;
  }

  function Flat(chunks: seq<seq<string>>): seq<string> {
    if chunks == [] then [] else Flat(chunks[..|chunks| - 1]) + chunks[|chunks| - 1]
  }

  lemma {:induction false} FlatConcat(a: seq<seq<string>>, b: seq<seq<string>>)
    ensures Flat(a + b) == Flat(a) + Flat(b)
  {
    if b == [] {
      assert a + b == a;
    } else {
      FlatConcat(a, b[..|b| - 1]);
      assert (a + b)[..|a + b| - 1] == a + b[..|b| - 1];
    }
  }

  predicate Bounded(chunks: seq<seq<string>>) {
    forall i :: 0 <= i < |chunks| ==> 1 <= |chunks[i]| <= CONCURRENCY
  }

  /** `deleteObjectsWithBoundedConcurrency`: the batches that are in flight together, in order. */
  method DeleteObjects(keys: seq<string>) returns (chunks: seq<seq<string>>)
    ensures Flat(chunks) == keys && Bounded(chunks)
    ensures 10 * |chunks| - 10 < |keys| <= 10 * |chunks|
    ensures forall i :: 0 <= i < |chunks| ==> chunks[i] == keys[10 * i..Min(10 * i + 10, |keys|)]
  {
    chunks := [];
    var index := 0;
    while index < |keys|
      invariant index == CONCURRENCY * |chunks| && index < |keys| + CONCURRENCY
      invariant Flat(chunks) == keys[..Min(index, |keys|)] && Bounded(chunks)
      invariant forall i :: 0 <= i < |chunks| ==>
        CONCURRENCY * i < |keys| && chunks[i] == keys[CONCURRENCY * i..Min(CONCURRENCY * i + CONCURRENCY, |keys|)]
    {
      var chunk := keys[index..Min(index + CONCURRENCY, |keys|)];
      assert (chunks + [chunk])[..|chunks|] == chunks;
      assert keys[..index] + chunk == keys[..Min(index + CONCURRENCY, |keys|)];
      chunks := chunks + [chunk];
      index := index + CONCURRENCY;
    }
  }

  /** `softDeleteAllBy...Id`. */
  function SoftDeleted(owner: Owner, table: Table): Table {
    if table == [] then []
    else
      var last := table[|table| - 1];
      SoftDeleted(owner, table[..|table| - 1]) + [if Active(owner, last) then last.(deleted := true) else last]
  }

  /** The rows that the soft-delete changes. */
  function ActiveRows(owner: Owner, table: Table): seq<Row> {
    if table == [] then []
    else
      var last := table[|table| - 1];
      ActiveRows(owner, table[..|table| - 1]) + if Active(owner, last) then [last] else []
  }

  method SoftDeleteAll(owner: Owner, table: Table) returns (after: Table, count: nat)
    ensures after == SoftDeleted(owner, table) && count == |ActiveRows(owner, table)|
  {
    after, count := [], 0;
    for i := 0 to |table|
      invariant after == SoftDeleted(owner, table[..i]) && count == |ActiveRows(owner, table[..i])|
    {
      assert table[..i + 1][..i] == table[..i];
      if Active(owner, table[i]) {
        after, count := after + [table[i].(deleted := true)], count + 1;
      } else {
        after := after + [table[i]];
      }
    }
    assert table[..|table|] == table;
  }

  /** The positions of the owner's live rows. */
  function LivePositions(owner: Owner, table: Table): set<nat> {
    set k: nat | k < |table| && Live(owner, table[k])
  }

  lemma {:induction false} CountsLiveRows(owner: Owner, table: Table)
    ensures |ActiveRows(owner, table)| == |LivePositions(owner, table)|
  {
    if table != [] {
      var most, last := table[..|table| - 1], table[|table| - 1];
      CountsLiveRows(owner, most);
      assert LivePositions(owner, table) == LivePositions(owner, most) + if Live(owner, last) then {|most|} else {};
    }
  }

  /** `tombstoneAllByUserId` and `tombstoneAllByOrganizationId`, for a sweep that ends at page `n`.
      `last` is the table that the final soft-delete finds, and `table` what it leaves. */
  method TombstoneAll(owner: Owner, tables: nat -> Table, ghost n: nat, last: Table)
    returns (chunks: seq<seq<string>>, table: Table, count: nat)
    requires EndsAt(PagerOf(tables, owner), n)
    ensures Flat(chunks) == Keys(Swept(PagerOf(tables, owner), n + 1)) && Bounded(chunks)
    ensures var swept := Swept(PagerOf(tables, owner), n + 1);
            && |Flat(chunks)| == |swept|
            && forall k :: 0 <= k < |swept| ==> Flat(chunks)[k] == swept[k].key
    ensures table == SoftDeleted(owner, last) && count == |ActiveRows(owner, last)|
    ensures |table| == |last| && count == |LivePositions(owner, last)|
    ensures forall k :: 0 <= k < |last| ==>
      table[k] == if Live(owner, last[k]) then last[k].(deleted := true) else last[k]
  {
    chunks := SweepPages(PagerOf(tables, owner), n);
    KeysAt(Swept(PagerOf(tables, owner), n + 1));
    table, count := SoftDeleteAll(owner, last);
    CountsLiveRows(owner, last);
    forall k | 0 <= k < |last|
      ensures |table| == |last| && table[k] == if Live(owner, last[k]) then last[k].(deleted := true) else last[k]
    {
      SoftDeletedAt(owner, last, k);
    }
  }

  method SweepPages(pager: Pager, ghost n: nat) returns (chunks: seq<seq<string>>)
    requires EndsAt(pager, n)
    ensures Flat(chunks) == Keys(Swept(pager, n + 1)) && Bounded(chunks)
  {
    var i, afterId, finished := 0, 0, false;
    chunks := [];
    ghost var done: seq<Row> := [];
    while !finished
      invariant i <= n + 1 && (finished <==> i == n + 1) && done == Swept(pager, i)
      invariant Flat(chunks) == Keys(done) && Bounded(chunks)
      invariant !finished ==> afterId == CursorAfter(pager, i)
      decreases n + 1 - i
    {
      NextPage(pager, n, i);
      var rows := pager(i, afterId);
      chunks := DeletePage(chunks, done, rows);
      done := done + rows;
      if |rows| < BATCH_SIZE {
        finished := true;
      } else {
        afterId := rows[|rows| - 1].id;
      }
      i := i + 1;
    }
  }

  lemma NextPage(pager: Pager, n: nat, i: nat)
    requires EndsAt(pager, n) && i <= n
    ensures var page := pager(i, CursorAfter(pager, i));
            && Swept(pager, i + 1) == Swept(pager, i) + page
            && (|page| < BATCH_SIZE <==> i == n)
            && (|page| >= BATCH_SIZE ==> CursorAfter(pager, i + 1) == page[|page| - 1].id)
  {
    assert ShortPage(pager, i) <==> i == n;
  }

  /** The deletions of one page join those made so far; an empty page adds none. */
  method DeletePage(chunks: seq<seq<string>>, ghost done: seq<Row>, rows: seq<Row>) returns (all: seq<seq<string>>)
    requires Flat(chunks) == Keys(done) && Bounded(chunks)
    ensures Flat(all) == Keys(done + rows) && Bounded(all)
  {
    var more := DeleteObjects(Keys(rows));
    FlatConcat(chunks, more);
    KeysConcat(done, rows);
    all := chunks + more;
  }

  lemma {:induction false} SoftDeletedAt(owner: Owner, table: Table, k: nat)
    requires k < |table|
    ensures |SoftDeleted(owner, table)| == |table|
    ensures SoftDeleted(owner, table)[k] == if Active(owner, table[k]) then table[k].(deleted := true) else table[k]
  {
    var most := table[..|table| - 1];
    if k < |most| {
      SoftDeletedAt(owner, most, k);
    } else if most != [] {
      SoftDeletedAt(owner, most, 0);
    }
  }

  /** After the sweep no row of the owner is active, and a second soft-delete finds nothing to do. */
  lemma {:induction false} NothingStaysActive(owner: Owner, table: Table)
    ensures ActiveRows(owner, SoftDeleted(owner, table)) == []
    ensures SoftDeleted(owner, SoftDeleted(owner, table)) == SoftDeleted(owner, table)
  {
    if table != [] {
      var most, after := table[..|table| - 1], SoftDeleted(owner, table);
      NothingStaysActive(owner, most);
      assert after[..|after| - 1] == SoftDeleted(owner, most);
    }
  }
}
