/**
 How an audit cursor is bound to its filters: `computeAuditFilterFingerprint` of
 `audit.repository.ts` writes the normalized filters as JSON and takes a digest of the text, and
 `findWithFilters` refuses a cursor with another digest.
 */
module AuditCursors {
  import opened Prelude
  import opened CanonicalJson
  import opened JsonText
  import opened AuditPages

  /** A filter as the caller wrote it. */
  datatype Field<T> = Omitted | Undefined | Nothing | Given(value: T)

  datatype RawFilters = RawFilters(
    organization: Field<nat>, actor: Field<nat>, resource: Field<string>, action: Field<string>,
    from: Field<string>, to: Field<string>)

  /** The filters after `?? null`. Dates are still texts. */
  datatype Normalized = Normalized(
    organization: Option<nat>, actor: Option<nat>, resource: Option<string>, action: Option<string>,
    from: Option<string>, to: Option<string>)

  function OrNull<T>(f: Field<T>): Option<T> {
    if f.Given? then Some(f.value) else None
  }

  function Normalize(raw: RawFilters): Normalized {
    Normalized(OrNull(raw.organization), OrNull(raw.actor), OrNull(raw.resource), OrNull(raw.action),
               OrNull(raw.from), OrNull(raw.to))
  }

  /** What the code does not define: the digest, and the instant a date text names. */
  datatype World = World(digest: string -> string, instant: string -> nat)

  ghost predicate CollisionFree(w: World) {
    forall a, b :: w.digest(a) == w.digest(b) ==> a == b
  }

  // ----- The text that is digested -----

  function Digit(n: nat): char
    requires n < 10
  {
    '0' + n as char
  }

  function Decimal(n: nat): string {
    if n < 10 then [Digit(n)] else Decimal(n / 10) + [Digit(n % 10)]
  }

  lemma {:induction false} DecimalIsNumber(n: nat)
    ensures Decimal(n) != [] && '0' <= Decimal(n)[0] <= '9' && NumText(Decimal(n))
  {
    if n >= 10 { DecimalIsNumber(n / 10); }
  }

  lemma {:induction false} DecimalInjective(m: nat, n: nat)
    requires Decimal(m) == Decimal(n)
    ensures m == n
  {
    DecimalIsNumber(m / 10);
    DecimalIsNumber(n / 10);
    assert m % 10 == n % 10 by {
      assert Decimal(m)[|Decimal(m)| - 1] == Digit(m % 10) && Decimal(n)[|Decimal(n)| - 1] == Digit(n % 10);
    }
    if m >= 10 && n >= 10 {
      assert Decimal(m)[..|Decimal(m)| - 1] == Decimal(m / 10) && Decimal(n)[..|Decimal(n)| - 1] == Decimal(n / 10);
      DecimalInjective(m / 10, n / 10);
    }
  }

  function NumberOrNull(n: Option<nat>): Json {
    if n.Some? then Num(Decimal(n.value)) else Null
  }

  function TextOrNull(s: Option<string>): Json {
    if s.Some? then Str(s.value) else Null
  }

  function FilterJson(n: Normalized): Json {
    Obj([Member("organization_id", NumberOrNull(n.organization)),
         Member("actor_user_id", NumberOrNull(n.actor)),
         Member("resource_type", TextOrNull(n.resource)),
         Member("action", TextOrNull(n.action)),
         Member("from", TextOrNull(n.from)),
         Member("to", TextOrNull(n.to))])
  }

  lemma NumberWellFormed(n: Option<nat>)
    ensures WellFormed(NumberOrNull(n))
  {
    if n.Some? { DecimalIsNumber(n.value); }
  }

  lemma FilterJsonWellFormed(n: Normalized)
    ensures WellFormed(FilterJson(n))
  {
    NumberWellFormed(n.organization);
    NumberWellFormed(n.actor);
  }

  lemma NumberInjective(a: Option<nat>, b: Option<nat>)
    requires NumberOrNull(a) == NumberOrNull(b)
    ensures a == b
  {
    if a.Some? { DecimalInjective(a.value, b.value); }
  }

  /** The digested text determines the normalized filters. */
  lemma TextInjective(a: Normalized, b: Normalized)
    ensures Print(FilterJson(a)) == Print(FilterJson(b)) <==> a == b
  {
    FilterJsonWellFormed(a);
    FilterJsonWellFormed(b);
    PrintInjective(FilterJson(a), FilterJson(b));
    if FilterJson(a) == FilterJson(b) {
      var x, y := FilterJson(a).members, FilterJson(b).members;
      assert x[0] == y[0] && x[1] == y[1] && x[2] == y[2] && x[3] == y[3] && x[4] == y[4] && x[5] == y[5];
      NumberInjective(a.organization, b.organization);
      NumberInjective(a.actor, b.actor);
    }
  }

  // ----- Requests -----

  function InstantOf(w: World, text: Option<string>): Option<nat> {
    if text.Some? then Some(w.instant(text.value)) else None
  }

  /** The filters of a request as the rest of `findWithFilters` uses them. */
  function Resolve(w: World, raw: RawFilters): Filters {
    var n := Normalize(raw);
    Filters(n.organization, n.actor, n.resource, n.action, InstantOf(w, n.from), InstantOf(w, n.to),
            w.digest(Print(FilterJson(n))))
  }

  /** Two fields are given with one value, or neither is given. */
  predicate SameField<T(==)>(a: Field<T>, b: Field<T>) {
    (a.Given? <==> b.Given?) && (a.Given? && b.Given? ==> a.value == b.value)
  }

  predicate SameFilters(a: RawFilters, b: RawFilters) {
    && SameField(a.organization, b.organization) && SameField(a.actor, b.actor)
    && SameField(a.resource, b.resource) && SameField(a.action, b.action)
    && SameField(a.from, b.from) && SameField(a.to, b.to)
  }

  /** What a request selects, read off the filters as they were written: only the instants of the two
      dates count, and `undefined` and `null` select nothing away. */
  lemma SelectsExactly(w: World, raw: RawFilters, r: Row)
    ensures Matches(Resolve(w, raw), r) <==>
            && (raw.organization.Given? ==> r.organization == Some(raw.organization.value))
            && (raw.actor.Given? ==> r.actor == Some(raw.actor.value))
            && (raw.resource.Given? ==> r.resource == raw.resource.value)
            && (raw.action.Given? ==> r.action == raw.action.value)
            && (raw.from.Given? ==> w.instant(raw.from.value) * 1000 <= r.createdAt)
            && (raw.to.Given? ==> r.createdAt <= w.instant(raw.to.value) * 1000)
  {
    assert raw.organization.Given? ==> Resolve(w, raw).organization == Some(raw.organization.value);
  }

  /** A cursor is refused exactly by requests whose filters, after `undefined`, `null` and omission
      are identified, are written differently from those it was minted under. */
  lemma CursorIsBoundToItsFilters(w: World, minted: RawFilters, used: RawFilters, r: Row)
    requires CollisionFree(w)
    ensures Refused(Resolve(w, used), Some(Mint(r, Resolve(w, minted)))) <==> Normalize(minted) != Normalize(used)
    ensures Normalize(minted) == Normalize(used) <==> SameFilters(minted, used)
    ensures Normalize(minted) == Normalize(used) ==> Resolve(w, minted) == Resolve(w, used)
  {
    TextInjective(Normalize(minted), Normalize(used));
  }

  /** Two texts of one instant select the same rows, and their cursors are still refused. */
  lemma OtherSpellingIsRefused(w: World, raw: RawFilters, text: string, r: Row)
    requires CollisionFree(w) && raw.from.Given? && raw.from.value != text
    requires w.instant(raw.from.value) == w.instant(text)
    ensures var other := raw.(from := Given(text));
            && Refused(Resolve(w, other), Some(Mint(r, Resolve(w, raw))))
            && forall x :: Matches(Resolve(w, other), x) <==> Matches(Resolve(w, raw), x)
  {
    CursorIsBoundToItsFilters(w, raw, raw.(from := Given(text)), r);
  }

  // ----- Chains of requests -----

  datatype Request = Request(filters: RawFilters, limit: nat)

  /** How the `n`-th request is answered, given the cursor it passes. */
  type Server = (nat, Option<Cursor>) -> Result<Page, Error>

  /** The answer to the `n`-th request of a chain, each passing the previous page's next cursor;
      `None` once the chain has stopped. */
  function Answer(server: Server, n: nat): Option<Result<Page, Error>> {
    if n == 0 then Some(server(0, None))
    else
      match Answer(server, n - 1)
      case Some(Ok(page)) => if page.next.None? then None else Some(server(n, page.next))
      case _ => None
  }

  predicate Answered(server: Server, n: nat) {
    Answer(server, n).Some? && Answer(server, n).value.Ok?
  }

  /** The `n`-th request is answered with a page and a cursor to go on from. */
  predicate GoesOn(server: Server, n: nat) {
    Answered(server, n) && Answer(server, n).value.value.next.Some?
  }

  /** The cursor that the `n`-th request of a chain passes. */
  function Passed(server: Server, n: nat): Option<Cursor> {
    if n > 0 && GoesOn(server, n - 1) then Answer(server, n - 1).value.value.next else None
  }

  lemma AnsweredStep(server: Server, n: nat)
    requires Answered(server, n + 1)
    ensures GoesOn(server, n)
  {
  }

  lemma AnswerIs(server: Server, n: nat)
    requires Answered(server, n)
    ensures server(n, Passed(server, n)) == Answer(server, n).value
  {
  }

  lemma {:induction false} AnsweredBefore(server: Server, n: nat, i: nat)
    requires Answered(server, n) && i <= n
    ensures Answered(server, i)
    decreases n
  {
    if i < n {
      AnsweredStep(server, n - 1);
      AnsweredBefore(server, n - 1, i);
    }
  }

  /** `findWithFilters` answering `requests`; `tables(n)` is the table the `n`-th one reads. */
  function AuditServer(w: World, tables: nat -> seq<Row>, requests: nat -> Request): Server {
    (n: nat, after: Option<Cursor>) => Reply(tables(n), Resolve(w, requests(n).filters), after, requests(n).limit)
  }

  /** A next cursor carries the fingerprint of the request that minted it. */
  lemma NextCarriesFingerprint(rows: seq<Row>, f: Filters, after: Option<Cursor>, limit: nat) returns (r: Row)
    requires Reply(rows, f, after, limit).Ok? && Reply(rows, f, after, limit).value.next.Some?
    ensures Reply(rows, f, after, limit).value.next == Some(Mint(r, f))
  {
    r := Listing(rows, f, after)[limit - 1];
  }

  /** A request that passes a page's next cursor is refused exactly when its filters are written
      differently from those of the request that got the page. */
  lemma PassedOnRefusedExactlyWhen(
    w: World, minted: RawFilters, rows: seq<Row>, after: Option<Cursor>, limit: nat,
    used: RawFilters, rows': seq<Row>, limit': nat)
    requires CollisionFree(w) && Reply(rows, Resolve(w, minted), after, limit).Ok?
    requires Reply(rows, Resolve(w, minted), after, limit).value.next.Some?
    ensures var next := Reply(rows, Resolve(w, minted), after, limit).value.next;
            Reply(rows', Resolve(w, used), next, limit').Err? <==> Normalize(used) != Normalize(minted)
  {
    var r := NextCarriesFingerprint(rows, Resolve(w, minted), after, limit);
    CursorIsBoundToItsFilters(w, minted, used, r);
  }

  lemma NextAnswerIs(server: Server, n: nat)
    requires GoesOn(server, n)
    ensures server(n, Passed(server, n)) == Answer(server, n).value
    ensures Answer(server, n + 1) == Some(server(n + 1, Answer(server, n).value.value.next))
  {
    AnswerIs(server, n);
  }

  /** The next request of a chain is refused exactly when its filters are written differently from
      those of the request before it. */
  lemma NextRefusedExactlyWhen(w: World, tables: nat -> seq<Row>, requests: nat -> Request, n: nat)
    requires CollisionFree(w) && GoesOn(AuditServer(w, tables, requests), n)
    ensures var next := Answer(AuditServer(w, tables, requests), n + 1);
            next.Some? && (next.value.Err? <==> Normalize(requests(n + 1).filters) != Normalize(requests(n).filters))
  {
    var server := AuditServer(w, tables, requests);
    NextAnswerIs(server, n);
    PassedOnRefusedExactlyWhen(
      w, requests(n).filters, tables(n), Passed(server, n), requests(n).limit,
      requests(n + 1).filters, tables(n + 1), requests(n + 1).limit);
  }

  lemma {:induction false} ChainKeepsFilters(w: World, tables: nat -> seq<Row>, requests: nat -> Request, n: nat)
    requires CollisionFree(w) && Answered(AuditServer(w, tables, requests), n)
    ensures Normalize(requests(n).filters) == Normalize(requests(0).filters)
  {
    if n != 0 {
      var m: nat := n - 1;
      AnsweredStep(AuditServer(w, tables, requests), m);
      NextRefusedExactlyWhen(w, tables, requests, m);
      ChainKeepsFilters(w, tables, requests, m);
    }
  }

  lemma PageMatches(rows: seq<Row>, f: Filters, after: Option<Cursor>, limit: nat, r: Row)
    requires Reply(rows, f, after, limit).Ok? && r in Reply(rows, f, after, limit).value.items
    ensures Matches(f, r)
  {
    ListingHas(rows, f, after, r);
  }

  /** One walk never mixes filters: when the `n`-th request of a chain is answered with a page, every
      request so far was written with the same filters, and the page holds only rows that match
      those of the first. */
  lemma ChainNeverMixesFilters(w: World, tables: nat -> seq<Row>, requests: nat -> Request, n: nat)
    requires CollisionFree(w) && Answered(AuditServer(w, tables, requests), n)
    ensures forall i: nat :: i <= n ==> Normalize(requests(i).filters) == Normalize(requests(0).filters)
    ensures forall r :: r in Answer(AuditServer(w, tables, requests), n).value.value.items ==>
      Matches(Resolve(w, requests(0).filters), r)
  {
    var server := AuditServer(w, tables, requests);
    forall i: nat | i <= n ensures Normalize(requests(i).filters) == Normalize(requests(0).filters) {
      AnsweredBefore(server, n, i);
      ChainKeepsFilters(w, tables, requests, i);
    }
    var f := Resolve(w, requests(n).filters);
    assert f == Resolve(w, requests(0).filters);
    AnswerIs(server, n);
    forall r | r in Answer(server, n).value.value.items ensures Matches(f, r) {
      PageMatches(tables(n), f, Passed(server, n), requests(n).limit, r);
    }
  }
}
