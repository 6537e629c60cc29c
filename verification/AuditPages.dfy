/**
 Keyset pagination of `audit.logs`: `findWithFilters` of `audit.repository.ts` over the cursor
 helpers of `pagination.util.ts`.

 Postgres keeps `created_at` in microseconds; a cursor carries it as a JavaScript `Date`, truncated
 to milliseconds. Times below are microseconds, cursor times milliseconds.
 */
module AuditPages {
  import opened Prelude
  import opened StrictSort

  datatype Row = Row(
    id: nat, createdAt: nat,
    organization: Option<nat>, actor: Option<nat>, resource: string, action: string)

  /** A missing, `undefined` or `null` filter is `None`; `from` and `to` are instants in
      milliseconds. `fingerprint` is the digest of the filters as they were written, which
      `AuditCursors` computes. */
  datatype Filters = Filters(
    organization: Option<nat>, actor: Option<nat>, resource: Option<string>, action: Option<string>,
    from: Option<nat>, to: Option<nat>, fingerprint: string)

  /** `LIST_TOTAL_COUNT_CAP`. */
  const TOTAL_CAP: nat := 10_000

  predicate Matches(f: Filters, r: Row) {
    && (f.organization.Some? ==> r.organization == f.organization)
    && (f.actor.Some? ==> r.actor == f.actor)
    && (f.resource.Some? ==> r.resource == f.resource.value)
    && (f.action.Some? ==> r.action == f.action.value)
    && (f.from.Some? ==> f.from.value * 1000 <= r.createdAt)
    && (f.to.Some? ==> r.createdAt <= f.to.value * 1000)
  }

  datatype Condition =
    | OrganizationIs(organization: nat)
    | ActorIs(actor: nat)
    | ResourceIs(resource: string)
    | ActionIs(action: string)
    | CreatedFrom(from: nat)
    | CreatedTo(to: nat)
    | AfterPosition(position: Cursor)

  predicate Holds(c: Condition, r: Row) {
    match c
    case OrganizationIs(o) => r.organization == Some(o)
    case ActorIs(a) => r.actor == Some(a)
    case ResourceIs(t) => r.resource == t
    case ActionIs(a) => r.action == a
    case CreatedFrom(ms) => ms * 1000 <= r.createdAt
    case CreatedTo(ms) => r.createdAt <= ms * 1000
    case AfterPosition(p) => AfterCursor(p, r)
  }

  predicate AllHold(cs: seq<Condition>, r: Row) {
    forall i :: 0 <= i < |cs| ==> Holds(cs[i], r)
  }

  method Push(cs: seq<Condition>, c: Condition) returns (out: seq<Condition>)
    ensures out == cs + [c]
    ensures forall r :: AllHold(out, r) <==> AllHold(cs, r) && Holds(c, r)
  {
    out := cs + [c];
    forall r ensures AllHold(out, r) <==> AllHold(cs, r) && Holds(c, r) {
      assert out[|cs|] == c && forall i :: 0 <= i < |cs| ==> out[i] == cs[i];
    }
  }

  method BuildFilterConditions(f: Filters) returns (cs: seq<Condition>)
    ensures forall r :: AllHold(cs, r) <==> Matches(f, r)
  {
    cs := [];
    if f.organization.Some? { cs := Push(cs, OrganizationIs(f.organization.value)); }
    if f.actor.Some? { cs := Push(cs, ActorIs(f.actor.value)); }
    if f.resource.Some? { cs := Push(cs, ResourceIs(f.resource.value)); }
    if f.action.Some? { cs := Push(cs, ActionIs(f.action.value)); }
    if f.from.Some? { cs := Push(cs, CreatedFrom(f.from.value)); }
    if f.to.Some? { cs := Push(cs, CreatedTo(f.to.value)); }
  }

  // ----- Cursors -----

  /** A decoded cursor. */
  datatype Cursor = Cursor(createdMs: nat, id: Option<nat>, fingerprint: Option<string>)

  /** `createOpaqueCursorFromRow`, through a millisecond `Date`. */
  function Mint(r: Row, f: Filters): Cursor {
    Cursor(r.createdAt / 1000, Some(r.id), Some(f.fingerprint))
  }

  /** `buildDescendingCreatedAtIdCursorCondition`. */
  predicate AfterCursor(c: Cursor, r: Row) {
    if c.id.None? then r.createdAt < c.createdMs * 1000
    else (r.createdAt < c.createdMs * 1000 && r.id != c.id.value)
         || (r.createdAt == c.createdMs * 1000 && r.id < c.id.value)
  }

  predicate After(after: Option<Cursor>, r: Row) {
    after.Some? ==> AfterCursor(after.value, r)
  }

  /** `ORDER BY created_at DESC, id DESC`. */
  predicate Before(a: Row, b: Row) {
    a.createdAt > b.createdAt || (a.createdAt == b.createdAt && a.id > b.id)
  }

  predicate DistinctIds(table: seq<Row>) {
    forall i, j :: 0 <= i < j < |table| ==> table[i].id != table[j].id
  }

  function Listing(table: seq<Row>, f: Filters, after: Option<Cursor>): seq<Row> {
    if table == [] then []
    else if Matches(f, table[0]) && After(after, table[0]) then Insert(Before, Listing(table[1..], f, after), table[0])
    else Listing(table[1..], f, after)
  }

  lemma {:induction false} ListingHas(table: seq<Row>, f: Filters, after: Option<Cursor>, r: Row)
    ensures r in Listing(table, f, after) <==> r in table && Matches(f, r) && After(after, r)
  {
    if table != [] {
      ListingHas(table[1..], f, after, r);
      InsertMembers(Before, Listing(table[1..], f, after), table[0]);
      assert r in table <==> r == table[0] || r in table[1..];
    }
  }

  /** The listing holds exactly the rows that differ from no given filter and lie past the cursor: of an
      earlier microsecond than the cursor's millisecond, or at it with a smaller id. */
  lemma ListedExactly(table: seq<Row>, f: Filters, after: Option<Cursor>, r: Row)
    ensures r in Listing(table, f, after) <==>
            && r in table
            && (f.organization.None? || f.organization == r.organization)
            && (f.actor.None? || f.actor == r.actor)
            && (f.resource.None? || f.resource.value == r.resource)
            && (f.action.None? || f.action.value == r.action)
            && (f.from.None? || f.from.value * 1000 <= r.createdAt)
            && (f.to.None? || r.createdAt <= f.to.value * 1000)
            && (after.None?
                || (r.createdAt < after.value.createdMs * 1000 && after.value.id != Some(r.id))
                || (r.createdAt == after.value.createdMs * 1000 && after.value.id.Some? && r.id < after.value.id.value))
  {
    ListingHas(table, f, after, r);
  }

  datatype Page = Page(items: seq<Row>, hasMore: bool, next: Option<Cursor>)

  datatype Error = InvalidPagination

  /** `LIMIT count`. */
  function Front(listing: seq<Row>, count: nat): seq<Row> {
    if |listing| <= count then listing else listing[..count]
  }

  function PageOf(listing: seq<Row>, f: Filters, limit: nat): Page {
    if |listing| <= limit then Page(listing, false, None)
    else Page(listing[..limit], true, if limit == 0 then None else Some(Mint(listing[limit - 1], f)))
  }

  predicate Refused(f: Filters, after: Option<Cursor>) {
    after.Some? && after.value.fingerprint.Some? && after.value.fingerprint.value != f.fingerprint
  }

  /** `audit.logs` as the statement of `findWithFilters` sees it. */
  class AuditLog {
    var rows: seq<Row>

    constructor ()
      ensures rows == []
    {
      rows := [];
    }

    /** `SELECT … WHERE conditions ORDER BY created_at DESC, id DESC LIMIT count`. */
    method Select(cs: seq<Condition>, count: nat) returns (fetched: seq<Row>)
      ensures forall f, after ::
        (forall r :: AllHold(cs, r) <==> Matches(f, r) && After(after, r)) ==>
        fetched == Front(Listing(rows, f, after), count)
    {
      var sorted: seq<Row> := [];
      var i := |rows|;
      while i > 0
        invariant 0 <= i <= |rows|
        invariant forall f, after ::
          (forall r :: AllHold(cs, r) <==> Matches(f, r) && After(after, r)) ==> sorted == Listing(rows[i..], f, after)
      {
        i := i - 1;
        assert rows[i..][1..] == rows[i + 1..];
        if AllHold(cs, rows[i]) { sorted := Insert(Before, sorted, rows[i]); }
      }
      assert rows[0..] == rows;
      fetched := Front(sorted, count);
    }

    method FindWithFilters(f: Filters, after: Option<Cursor>, limit: nat, includeTotal: bool)
      returns (r: Result<Page, Error>, total: Option<nat>)
      ensures r == Reply(rows, f, after, limit)
      ensures r.Err? <==>
        after.Some? && after.value.fingerprint.Some? && after.value.fingerprint.value != f.fingerprint
      ensures r.Ok? ==>
        var listing, items := Listing(rows, f, after), r.value.items;
        && items <= listing && |items| == Min(|listing|, limit) && (r.value.hasMore <==> |items| < |listing|)
        && r.value.next ==
           if !r.value.hasMore || limit == 0 then None
           else Some(Cursor(items[limit - 1].createdAt / 1000, Some(items[limit - 1].id), Some(f.fingerprint)))
      ensures total == if r.Ok? && includeTotal then Some(Min(|Listing(rows, f, None)|, 10_000)) else None
    {
      total := None;
      var filterConditions := BuildFilterConditions(f);
      if after.Some? && after.value.fingerprint.Some? && after.value.fingerprint.value != f.fingerprint {
        return Err(InvalidPagination), None;
      }
      var conditions := filterConditions;
      if after.Some? { conditions := Push(conditions, AfterPosition(after.value)); }
      assert forall r :: AllHold(conditions, r) <==> Matches(f, r) && After(after, r);
      var fetched := Select(conditions, limit + 1);
      if includeTotal { total := CountWithCap(f, filterConditions); }
      var page := CutPage(Listing(rows, f, after), fetched, f, limit);
      return Ok(page), total;
    }

    method CutPage(ghost listing: seq<Row>, fetched: seq<Row>, f: Filters, limit: nat) returns (page: Page)
      requires fetched == Front(listing, limit + 1)
      ensures page == PageOf(listing, f, limit)
      ensures page.items <= listing && |page.items| == Min(|listing|, limit)
      ensures page.hasMore <==> |page.items| < |listing|
      ensures page.next ==
              if !page.hasMore || limit == 0 then None
              else Some(Cursor(page.items[limit - 1].createdAt / 1000, Some(page.items[limit - 1].id),
                               Some(f.fingerprint)))
    {
      var hasMore := |fetched| > limit;
      var items := if hasMore then fetched[..limit] else fetched;
      page := Page(items, hasMore, if hasMore && |items| > 0 then Some(Mint(items[|items| - 1], f)) else None);
    }

    /** `countWithCap`: the cursor does not restrict the count, and it stops at the cap. */
    method CountWithCap(ghost f: Filters, cs: seq<Condition>) returns (total: Option<nat>)
      requires forall r :: AllHold(cs, r) <==> Matches(f, r)
      ensures total == Some(Min(|Listing(rows, f, None)|, 10_000))
    {
      assert forall r :: AllHold(cs, r) <==> Matches(f, r) && After(None, r);
      var counted := Select(cs, TOTAL_CAP);
      total := Some(|counted|);
    }
  }

  /** What a request answers. */
  function Reply(rows: seq<Row>, f: Filters, after: Option<Cursor>, limit: nat): Result<Page, Error> {
    if Refused(f, after) then Err(InvalidPagination) else Ok(PageOf(Listing(rows, f, after), f, limit))
  }
}
