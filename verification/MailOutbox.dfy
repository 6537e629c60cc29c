/**
 The mail outbox (`mail-outbox.repository.ts`) and its worker (`mail.processor.ts`): rows are
 inserted pending, claimed by a worker, emailed, and finished as sent or failed with their body
 scrubbed; a sweeper returns stuck rows to pending. A step is one SQL statement or one call to the
 mail provider, so workers and sweepers interleave between any two statements and may die there.
 */
module MailOutbox {
  import opened Prelude

  datatype Status = Pending | Sending | Sent | Failed

  datatype Body = Body(html: string, text: Option<string>)

  /** What the terminal updates leave of a body. */
  const SCRUBBED: Body := Body("", None)

  datatype Row = Row(body: Body, dedupeKey: Option<string>, status: Status, updatedAt: nat)

  type Table = map<nat, Row>

  predicate Terminal(s: Status) {
    s.Sent? || s.Failed?
  }

  // ----- Statements -----

  predicate Claimable(rows: Table, id: nat) {
    id in rows && rows[id].status.Pending?
  }

  predicate Held(rows: Table, id: nat) {
    id in rows && rows[id].status.Sending?
  }

  /** `UPDATE ... SET status = 'sending' WHERE id = ? AND status = 'pending'`. */
  function ClaimRow(rows: Table, id: nat, now: nat): Table {
    if Claimable(rows, id) then rows[id := rows[id].(status := Sending, updatedAt := now)] else rows
  }

  /** `UPDATE ... SET status = 'pending' WHERE id = ? AND status = 'sending'`. */
  function ReleaseRow(rows: Table, id: nat, now: nat): Table {
    if Held(rows, id) then rows[id := rows[id].(status := Pending, updatedAt := now)] else rows
  }

  /** The terminal updates: not guarded by status, and they scrub the body. */
  function FinishRow(rows: Table, id: nat, status: Status, now: nat): Table {
    if id in rows then rows[id := rows[id].(status := status, updatedAt := now, body := SCRUBBED)] else rows
  }

  predicate Stale(r: Row, cutoff: int) {
    r.status.Sending? && r.updatedAt < cutoff
  }

  /** `SELECT id ... ORDER BY updated_at LIMIT ?`: the oldest stale rows, all of them if they fit. */
  predicate StaleBatch(rows: Table, cutoff: int, limit: nat, ids: set<nat>) {
    && |ids| <= limit
    && (forall id :: id in ids ==> id in rows && Stale(rows[id], cutoff))
    && (forall id, other :: id in ids && other in rows && other !in ids && Stale(rows[other], cutoff) ==>
          rows[id].updatedAt <= rows[other].updatedAt)
    && (|ids| < limit ==> forall id :: id in rows && Stale(rows[id], cutoff) ==> id in ids)
  }

  /** The second statement of the reclaim repeats the condition row by row. */
  function ReclaimRows(rows: Table, ids: set<nat>, cutoff: int, now: nat): Table {
    map id | id in rows ::
      if id in ids && Stale(rows[id], cutoff) then rows[id].(status := Pending, updatedAt := now) else rows[id]
  }

  datatype ClaimResult = Claimed | InFlight | AlreadySent | TerminallyFailed | NotFound

  /** What the second read of a refused claim reports. A row released in between reads as pending
      and is reported in flight. */
  function Refusal(rows: Table, id: nat): ClaimResult {
    if id !in rows then NotFound
    else match rows[id].status
      case Sent => AlreadySent
      case Failed => TerminallyFailed
      case _ => InFlight
  }

  predicate KeyTaken(rows: Table, key: Option<string>) {
    key.Some? && exists id :: id in rows && rows[id].dedupeKey == key
  }

  predicate KeysUnique(rows: Table) {
    forall a, b :: a in rows && b in rows && rows[a].dedupeKey.Some? && rows[a].dedupeKey == rows[b].dedupeKey ==>
      a == b
  }

  datatype InsertError = UniqueViolation

  /** The table, with each repository function run by itself. */
  class Outbox {
    var rows: Table
    var nextId: nat

    ghost predicate Valid()
      reads this
    {
      KeysUnique(rows) && forall id :: id in rows ==> id < nextId
    }

    constructor ()
      ensures Valid() && rows == map[]
    {
      rows, nextId := map[], 0;
    }

    /** `insertMailOutbox`. An empty key counts as no key for the conflict clause but not for the
        unique index, so its second use throws. */
    method Insert(body: Body, key: Option<string>, now: nat) returns (r: Result<nat, InsertError>)
      requires Valid()
      modifies this
      ensures Valid()
      ensures r.Err? <==> KeyTaken(old(rows), key) && key == Some("")
      ensures r.Ok? ==> r.value in rows && rows[r.value].dedupeKey == key
      ensures KeyTaken(old(rows), key) ==> rows == old(rows)
      ensures key.None? ==> r.Ok? && r.value !in old(rows)
      ensures forall id :: id in old(rows) && old(rows)[id].dedupeKey == key && key.Some? ==>
        r == if key.value == "" then Err(UniqueViolation) else Ok(id)
      ensures !KeyTaken(old(rows), key) ==>
        r.Ok? && r.value !in old(rows) && rows == old(rows)[r.value := Row(body, key, Pending, now)]
    {
      if KeyTaken(rows, key) {
        if key == Some("") { return Err(UniqueViolation); }
        var id :| id in rows && rows[id].dedupeKey == key;
        return Ok(id);
      }
      rows := rows[nextId := Row(body, key, Pending, now)];
      nextId := nextId + 1;
      return Ok(nextId - 1);
    }

    method TryClaim(id: nat, now: nat) returns (r: ClaimResult)
      requires Valid()
      modifies this`rows
      ensures Valid()
      ensures rows == ClaimRow(old(rows), id, now)
      ensures r == NotFound <==> id !in old(rows)
      ensures id in old(rows) ==>
        var row := old(rows)[id];
        && (r == Claimed <==> row.status.Pending?) && (r == InFlight <==> row.status.Sending?)
        && (r == AlreadySent <==> row.status.Sent?) && (r == TerminallyFailed <==> row.status.Failed?)
        && (r == Claimed ==> rows == old(rows)[id := Row(row.body, row.dedupeKey, Sending, now)])
      ensures r != Claimed ==> rows == old(rows) && r == Refusal(old(rows), id)
    {
      if id in rows && rows[id].status.Pending? {
        rows := rows[id := rows[id].(status := Sending, updatedAt := now)];
        return Claimed;
      }
      if id !in rows { return NotFound; }
      if rows[id].status.Sent? { return AlreadySent; }
      if rows[id].status.Failed? { return TerminallyFailed; }
      return InFlight;
    }

    /** `reclaimStaleSendingMailOutboxIds`, with the batch the SELECT chose. */
    method ReclaimStale(cutoff: int, limit: nat, ids: set<nat>, now: nat) returns (reclaimed: set<nat>)
      requires Valid() && StaleBatch(rows, cutoff, limit, ids)
      modifies this`rows
      ensures Valid()
      ensures reclaimed == ids && |reclaimed| <= limit
      ensures rows == ReclaimRows(old(rows), ids, cutoff, now)
      ensures rows.Keys == old(rows).Keys
      ensures forall id :: id in reclaimed ==>
        && id in rows && old(rows)[id].status.Sending? && old(rows)[id].updatedAt < cutoff
        && rows[id] == Row(old(rows)[id].body, old(rows)[id].dedupeKey, Pending, now)
      ensures forall id :: id in rows && id !in reclaimed ==> rows[id] == old(rows)[id]
      ensures forall id, other :: id in reclaimed && other in rows && other !in reclaimed ==>
        rows[other].status.Sending? && rows[other].updatedAt < cutoff ==>
          old(rows)[id].updatedAt <= rows[other].updatedAt
      ensures |reclaimed| < limit ==>
        forall id :: id in rows && rows[id].status.Sending? ==> cutoff <= rows[id].updatedAt
    {
      reclaimed := set id | id in ids && id in rows && Stale(rows[id], cutoff);
      rows := map id | id in rows ::
        if id in reclaimed then rows[id].(status := Pending, updatedAt := now) else rows[id];
    }

    method Finish(id: nat, sent: bool, now: nat)
      requires Valid()
      modifies this`rows
      ensures Valid()
      ensures rows == FinishRow(old(rows), id, if sent then Sent else Failed, now)
      ensures rows ==
              if id !in old(rows) then old(rows)
              else old(rows)[id := Row(Body("", None), old(rows)[id].dedupeKey, if sent then Sent else Failed, now)]
    {
      if id in rows {
        rows := rows[id := rows[id].(status := if sent then Sent else Failed, updatedAt := now, body := SCRUBBED)];
      }
    }

    method Release(id: nat, now: nat)
      requires Valid()
      modifies this`rows
      ensures Valid()
      ensures rows == ReleaseRow(old(rows), id, now)
      ensures rows ==
              if id !in old(rows) || !old(rows)[id].status.Sending? then old(rows)
              else old(rows)[id := Row(old(rows)[id].body, old(rows)[id].dedupeKey, Pending, now)]
    {
      if id in rows && rows[id].status.Sending? {
        rows := rows[id := rows[id].(status := Pending, updatedAt := now)];
      }
    }
  }
}
