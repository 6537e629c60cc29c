/**
 The audit outbox (`audit-outbox.repository.ts`, `audit-outbox-drain.processor.ts`): staged rows are
 claimed in batches with `FOR UPDATE SKIP LOCKED`, copied one by one into the audit log, and marked
 processed or failed, all in one drain transaction; processed rows are pruned later. Any number of
 drains and prunes interleave; a drain's writes appear when it commits and its row locks last until
 it ends.
 */
module AuditOutbox {

  datatype Status = Pending | Processed | Failed

  datatype Row = Row(payload: string, createdAt: nat, status: Status, attempts: nat)

  type Table = map<nat, Row>

  datatype Entry = Entry(id: nat, payload: string)

  /** The batch size and the attempt cap. */
  datatype Config = Config(limit: nat, maxAttempts: nat)

  /** What became of one claimed row. */
  datatype Outcome = Success | Transient | Permanent

  // ----- Statements -----

  predicate Claimable(rows: Table, locked: set<nat>, id: nat) {
    id in rows && rows[id].status.Pending? && id !in locked
  }

  predicate Distinct(batch: seq<nat>) {
    forall i, j :: 0 <= i < j < |batch| ==> batch[i] != batch[j]
  }

  /** What the locking SELECT may return: some claimable rows, at most `limit`. Rows that others have
      locked are skipped, so it need not fill the limit, and the order is not promised. */
  predicate IsClaim(rows: Table, locked: set<nat>, limit: nat, batch: seq<nat>) {
    |batch| <= limit && Distinct(batch) && forall id :: id in batch ==> Claimable(rows, locked, id)
  }

  function Counted(row: Row): Row {
    row.(attempts := row.attempts + 1)
  }

  /** The UPDATE of `claimPendingBatch`. */
  function Claimed(rows: Table, batch: seq<nat>): Table {
    map id | id in rows :: if id in batch then Counted(rows[id]) else rows[id]
  }

  /** How one claimed row ends. The claim has already counted itself in the `attempt_count` that the
      cap is compared with, plus one. */
  function Drained(c: Config, claimed: Row, resolved: bool, inserted: bool): Outcome {
    if !resolved then Permanent
    else if inserted then Success
    else if claimed.attempts + 1 >= c.maxAttempts then Permanent
    else Transient
  }

  function Outcomes(c: Config, claimed: Table, batch: seq<nat>, resolves: nat -> bool, inserts: nat -> bool)
    : map<nat, Outcome>
  {
    map id | id in batch && id in claimed :: Drained(c, claimed[id], resolves(id), inserts(id))
  }

  /** A claimed row with its outcome; a transient failure leaves the status as it is. */
  function Marked(row: Row, o: Outcome): Row {
    match o
    case Success => row.(status := Processed)
    case Transient => row
    case Permanent => row.(status := Failed)
  }

  /** The table as the commit of a drain leaves it. */
  function Committed(rows: Table, outcomes: map<nat, Outcome>): Table {
    map id | id in rows :: if id in outcomes then Marked(Counted(rows[id]), outcomes[id]) else rows[id]
  }

  /** The log rows that the first `i` rows of a batch insert. */
  function Inserted(rows: Table, outcomes: map<nat, Outcome>, batch: seq<nat>, i: nat): multiset<Entry>
    requires i <= |batch| && forall id :: id in batch ==> id in rows && id in outcomes
  {
    if i == 0 then multiset{}
    else
      var last := batch[i - 1];
      Inserted(rows, outcomes, batch, i - 1)
      + if outcomes[last].Success? then multiset{Entry(last, rows[last].payload)} else multiset{}
  }

  /** The table after the first `i` rows of a pass: successes still wait for `markProcessed`. */
  function Midway(rows: Table, outcomes: map<nat, Outcome>, batch: seq<nat>, i: nat): Table
    requires i <= |batch| && forall id :: id in batch ==> id in rows && id in outcomes
  {
    if i == 0 then rows
    else
      var last := batch[i - 1];
      if outcomes[last].Success? then Midway(rows, outcomes, batch, i - 1)
      else Midway(rows, outcomes, batch, i - 1)[last := Marked(rows[last], outcomes[last])]
  }

  function Successes(outcomes: map<nat, Outcome>, batch: seq<nat>, i: nat): seq<nat>
    requires i <= |batch| && forall id :: id in batch ==> id in outcomes
  {
    if i == 0 then []
    else Successes(outcomes, batch, i - 1) + if outcomes[batch[i - 1]].Success? then [batch[i - 1]] else []
  }

  /** A row that is not reached yet is untouched; a reached one has its outcome, or waits for it. */
  lemma {:induction false} PassSoFar(rows: Table, outcomes: map<nat, Outcome>, batch: seq<nat>, i: nat, id: nat)
    requires i <= |batch| && Distinct(batch) && forall id :: id in batch ==> id in rows && id in outcomes
    requires id in rows
    ensures id in Midway(rows, outcomes, batch, i)
    ensures id !in batch[..i] ==>
      Midway(rows, outcomes, batch, i)[id] == rows[id] && id !in Successes(outcomes, batch, i)
    ensures id in batch[..i] ==>
      && (id in Successes(outcomes, batch, i) <==> outcomes[id].Success?)
      && Midway(rows, outcomes, batch, i)[id] ==
         if outcomes[id].Success? then rows[id] else Marked(rows[id], outcomes[id])
  {
    if i > 0 {
      PassSoFar(rows, outcomes, batch, i - 1, id);
      assert batch[..i] == batch[..i - 1] + [batch[i - 1]];
      assert batch[i - 1] !in batch[..i - 1];
    }
  }

  lemma {:induction false} PassKeepsKeys(rows: Table, outcomes: map<nat, Outcome>, batch: seq<nat>, i: nat)
    requires i <= |batch| && forall id :: id in batch ==> id in rows && id in outcomes
    ensures Midway(rows, outcomes, batch, i).Keys == rows.Keys
  {
    if i > 0 {
      PassKeepsKeys(rows, outcomes, batch, i - 1);
      assert batch[i - 1] in rows.Keys;
    }
  }

  lemma {:induction false} PassSizes(rows: Table, outcomes: map<nat, Outcome>, batch: seq<nat>, i: nat)
    requires i <= |batch| && Distinct(batch) && forall id :: id in batch ==> id in rows && id in outcomes
    ensures |Inserted(rows, outcomes, batch, i)| == |Successes(outcomes, batch, i)|
  {
    if i > 0 { PassSizes(rows, outcomes, batch, i - 1); }
  }

  lemma NextRow(rows: Table, outcomes: map<nat, Outcome>, batch: seq<nat>, i: nat)
    requires i < |batch| && Distinct(batch) && forall id :: id in batch ==> id in rows && id in outcomes
    ensures batch[i] in Midway(rows, outcomes, batch, i) && Midway(rows, outcomes, batch, i)[batch[i]] == rows[batch[i]]
    ensures batch[i] !in Successes(outcomes, batch, i)
    ensures !outcomes[batch[i]].Success? ==>
      && Midway(rows, outcomes, batch, i + 1) ==
         Midway(rows, outcomes, batch, i)[batch[i] := Marked(rows[batch[i]], outcomes[batch[i]])]
      && Successes(outcomes, batch, i + 1) == Successes(outcomes, batch, i)
      && Inserted(rows, outcomes, batch, i + 1) == Inserted(rows, outcomes, batch, i)
    ensures outcomes[batch[i]].Success? ==>
      && Midway(rows, outcomes, batch, i + 1) == Midway(rows, outcomes, batch, i)
      && Successes(outcomes, batch, i + 1) == Successes(outcomes, batch, i) + [batch[i]]
      && Inserted(rows, outcomes, batch, i + 1) ==
         Inserted(rows, outcomes, batch, i) + multiset{Entry(batch[i], rows[batch[i]].payload)}
  {
    assert batch[i] in batch;
    PassSoFar(rows, outcomes, batch, i, batch[i]);
    assert batch[i] !in batch[..i];
  }

  /** Claiming, marking row by row and marking the successes last gives every row its own outcome. */
  lemma PassEnd(rows: Table, outcomes: map<nat, Outcome>, batch: seq<nat>)
    requires Distinct(batch) && forall id :: id in batch ==> id in rows && id in outcomes
    requires forall id :: id in outcomes ==> id in batch
    ensures var claimed := Claimed(rows, batch);
            Processing(Midway(claimed, outcomes, batch, |batch|), Successes(outcomes, batch, |batch|))
            == Committed(rows, outcomes)
  {
    var claimed := Claimed(rows, batch);
    assert batch[..|batch|] == batch;
    PassKeepsKeys(claimed, outcomes, batch, |batch|);
    var marked := Processing(Midway(claimed, outcomes, batch, |batch|), Successes(outcomes, batch, |batch|));
    forall id | id in rows ensures id in marked && marked[id] == Committed(rows, outcomes)[id] {
      PassSoFar(claimed, outcomes, batch, |batch|, id);
    }
  }

  /** `markProcessed`. */
  function Processing(rows: Table, ids: seq<nat>): Table {
    map id | id in rows :: if id in ids then Marked(rows[id], Success) else rows[id]
  }

  lemma OneMore(batch: seq<nat>, i: nat, id: nat)
    requires i < |batch| && Distinct(batch)
    ensures id in batch[..i + 1] <==> id in batch[..i] || id == batch[i]
    ensures batch[i] !in batch[..i]
  {
    assert batch[..i + 1] == batch[..i] + [batch[i]];
  }

  /** How often an entry is among the log rows of a pass. */
  lemma {:induction false} InsertedTimes(rows: Table, outcomes: map<nat, Outcome>, batch: seq<nat>, i: nat, m: Entry)
    requires i <= |batch| && Distinct(batch) && forall id :: id in batch ==> id in rows && id in outcomes
    ensures Inserted(rows, outcomes, batch, i)[m] ==
            if m.id in batch[..i] && outcomes[m.id].Success? && m.payload == rows[m.id].payload then 1 else 0
  {
    if i > 0 {
      var j: nat := i - 1;
      InsertedTimes(rows, outcomes, batch, j, m);
      OneMore(batch, j, m.id);
      var last := if outcomes[batch[j]].Success? then multiset{Entry(batch[j], rows[batch[j]].payload)} else multiset{};
      assert Inserted(rows, outcomes, batch, i)[m] == Inserted(rows, outcomes, batch, j)[m] + last[m];
    }
  }

  /** What a drain makes of one claimed row: processed when its insert succeeds, failed when it does not
      resolve or its failed insert uses up the cap, pending otherwise, and counted in any case. */
  function After(c: Config, row: Row, resolved: bool, inserted: bool): Row {
    Row(row.payload, row.createdAt,
        if resolved && inserted then Processed
        else if !resolved || row.attempts + 2 >= c.maxAttempts then Failed
        else Pending,
        row.attempts + 1)
  }

  /** Row by row, what a drain of `batch` leaves. */
  lemma DrainedExactly(c: Config, rows: Table, batch: seq<nat>, resolves: nat -> bool, inserts: nat -> bool, id: nat)
    requires (forall id :: id in batch ==> id in rows && rows[id].status.Pending?) && id in rows
    ensures var outcomes := Outcomes(c, Claimed(rows, batch), batch, resolves, inserts);
            && Committed(rows, outcomes).Keys == rows.Keys
            && Committed(rows, outcomes)[id] ==
               if id in batch then After(c, rows[id], resolves(id), inserts(id)) else rows[id]
  {
  }

  /** Entry by entry, what it logs. */
  lemma InsertedExactly(c: Config, rows: Table, batch: seq<nat>, resolves: nat -> bool, inserts: nat -> bool, m: Entry)
    requires Distinct(batch) && forall id :: id in batch ==> id in rows
    ensures var claimed := Claimed(rows, batch);
            Inserted(claimed, Outcomes(c, claimed, batch, resolves, inserts), batch, |batch|)[m] ==
            if m.id in batch && resolves(m.id) && inserts(m.id) && m.payload == rows[m.id].payload then 1 else 0
  {
    var claimed := Claimed(rows, batch);
    assert batch[..|batch|] == batch;
    InsertedTimes(claimed, Outcomes(c, claimed, batch, resolves, inserts), batch, |batch|, m);
  }

  /** The table, the log, and one whole drain run by itself. */
  class Store {
    var rows: Table
    var logs: multiset<Entry>

    constructor ()
      ensures rows == map[] && logs == multiset{}
    {
      rows, logs := map[], multiset{};
    }

    /** `claimPendingBatch`, with the rows that its locking SELECT returned. */
    method Claim(limit: nat, batch: seq<nat>)
      requires IsClaim(rows, {}, limit, batch)
      modifies this`rows
      ensures rows == Claimed(old(rows), batch)
      ensures rows.Keys == old(rows).Keys
      ensures forall id :: id in rows ==>
        rows[id] == old(rows)[id].(attempts := old(rows)[id].attempts + if id in batch then 1 else 0)
    {
      rows := map id | id in rows :: if id in batch then rows[id].(attempts := rows[id].attempts + 1) else rows[id];
    }

    /** `runAuditOutboxDrainJob`. */
    method Drain(c: Config, batch: seq<nat>, resolves: nat -> bool, inserts: nat -> bool)
      returns (drained: nat, transientFailed: nat, permanentlyFailed: nat)
      requires IsClaim(rows, {}, c.limit, batch)
      modifies this
      ensures drained + transientFailed + permanentlyFailed == |batch| <= c.limit
      ensures var claimed := Claimed(old(rows), batch); var outcomes := Outcomes(c, claimed, batch, resolves, inserts);
              && rows == Committed(old(rows), outcomes)
              && logs == old(logs) + Inserted(claimed, outcomes, batch, |batch|)
      ensures |logs| == |old(logs)| + drained
      ensures rows.Keys == old(rows).Keys
      ensures forall id :: id in rows ==>
        rows[id] == if id in batch then After(c, old(rows)[id], resolves(id), inserts(id)) else old(rows)[id]
      ensures forall m :: logs[m] - old(logs)[m] ==
                          if m.id in batch && resolves(m.id) && inserts(m.id) && m.payload == old(rows)[m.id].payload
                          then 1 else 0
    {
      ghost var before := rows;
      ghost var outcomes := Outcomes(c, Claimed(rows, batch), batch, resolves, inserts);
      assert forall id :: id in batch ==> Claimable(rows, {}, id);
      Claim(c.limit, batch);
      drained, transientFailed, permanentlyFailed := Pass(c, batch, resolves, inserts);
      PassEnd(before, outcomes, batch);
      forall id | id in rows
        ensures rows[id] == if id in batch then After(c, before[id], resolves(id), inserts(id)) else before[id]
      {
        DrainedExactly(c, before, batch, resolves, inserts, id);
      }
      forall m
        ensures Inserted(Claimed(before, batch), outcomes, batch, |batch|)[m] ==
                if m.id in batch && resolves(m.id) && inserts(m.id) && m.payload == before[m.id].payload then 1 else 0
      {
        InsertedExactly(c, before, batch, resolves, inserts, m);
      }
    }

    /** The loop over the claimed rows, and `markProcessed`. */
    method Pass(c: Config, batch: seq<nat>, resolves: nat -> bool, inserts: nat -> bool)
      returns (drained: nat, transientFailed: nat, permanentlyFailed: nat)
      requires Distinct(batch) && forall id :: id in batch ==> id in rows
      modifies this
      ensures drained + transientFailed + permanentlyFailed == |batch|
      ensures var outcomes := Outcomes(c, old(rows), batch, resolves, inserts);
              && rows == Processing(Midway(old(rows), outcomes, batch, |batch|), Successes(outcomes, batch, |batch|))
              && logs == old(logs) + Inserted(old(rows), outcomes, batch, |batch|)
      ensures |logs| == |old(logs)| + drained
    {
      ghost var outcomes := Outcomes(c, rows, batch, resolves, inserts);
      ghost var before := rows;
      var successIds: seq<nat> := [];
      var added: multiset<Entry> := multiset{};
      transientFailed, permanentlyFailed := 0, 0;
      var i := 0;
      while i < |batch|
        invariant 0 <= i <= |batch| && logs == old(logs)
        invariant |successIds| + transientFailed + permanentlyFailed == i
        invariant rows == Midway(before, outcomes, batch, i)
        invariant successIds == Successes(outcomes, batch, i)
        invariant added == Inserted(before, outcomes, batch, i)
      {
        var id := batch[i];
        NextRow(before, outcomes, batch, i);
        assert outcomes[id] == Drained(c, rows[id], resolves(id), inserts(id));
        var outcome := DrainRow(c, id, resolves(id), inserts(id));
        if outcome.Success? {
          added := added + multiset{Entry(id, rows[id].payload)};
          successIds := successIds + [id];
        } else if outcome.Transient? {
          transientFailed := transientFailed + 1;
        } else {
          permanentlyFailed := permanentlyFailed + 1;
        }
        i := i + 1;
      }
      PassSizes(before, outcomes, batch, |batch|);
      MarkProcessed(successIds);
      logs := logs + added;
      drained := |successIds|;
    }

    /** `drainOutboxRow`: a success is marked later, with the others. */
    method DrainRow(c: Config, id: nat, resolved: bool, inserted: bool) returns (o: Outcome)
      requires id in rows
      modifies this`rows
      ensures o == Drained(c, old(rows)[id], resolved, inserted)
      ensures o == Success <==> resolved && inserted
      ensures o == Transient <==> resolved && !inserted && old(rows)[id].attempts + 1 < c.maxAttempts
      ensures rows == if o == Permanent then old(rows)[id := old(rows)[id].(status := Failed)] else old(rows)
      ensures rows == if o.Success? then old(rows) else old(rows)[id := Marked(old(rows)[id], o)]
    {
      if !resolved {
        rows := rows[id := rows[id].(status := Failed)];
        return Permanent;
      }
      if inserted { return Success; }
      if rows[id].attempts + 1 >= c.maxAttempts {
        rows := rows[id := rows[id].(status := Failed)];
        return Permanent;
      }
      assert rows == rows[id := rows[id]];
      return Transient;
    }

    method MarkProcessed(ids: seq<nat>)
      modifies this`rows
      ensures rows == Processing(old(rows), ids)
      ensures rows.Keys == old(rows).Keys
      ensures forall id :: id in rows ==>
        rows[id] == if id in ids then old(rows)[id].(status := Processed) else old(rows)[id]
    {
      rows := map id | id in rows :: if id in ids then rows[id].(status := Processed) else rows[id];
    }
  }
}
