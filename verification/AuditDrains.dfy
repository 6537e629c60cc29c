/**
 Any number of concurrent drain transactions and prunes over one audit outbox. `staged` remembers
 the payload of every row ever staged and `claims` the committed claims of each.
 */
module AuditDrains {
  import opened AuditOutbox

  /** An open drain: the rows it locked, how each of the first ones ended, and what it inserted. */
  datatype Txn = Txn(batch: seq<nat>, outcomes: map<nat, Outcome>, inserted: multiset<Entry>, next: nat)

  datatype State = State(
    rows: Table,
    logs: multiset<Entry>,
    open: map<nat, Txn>,
    prunes: map<nat, set<nat>>,
    staged: map<nat, string>,
    claims: map<nat, nat>)

  datatype Event =
    | Stage(id: nat, payload: string, createdAt: nat)
    | Claim(txn: nat, batch: seq<nat>)
    | Step(txn: nat, resolved: bool, inserted: bool)
    | Commit(txn: nat)
    | Abort(txn: nat)
    | FindProcessed(prune: nat, ids: set<nat>)
    | DeleteFound(prune: nat)

  function Init(): State {
    State(map[], multiset{}, map[], map[], map[], map[])
  }

  /** The rows under row locks. */
  function Locked(s: State): set<nat> {
    set t, id | t in s.open && id in s.open[t].batch :: id
  }

  /** The next row of the batch, in its own savepoint. */
  function StepTxn(c: Config, rows: Table, d: Txn, resolved: bool, inserted: bool): Txn {
    if d.next >= |d.batch| || d.batch[d.next] !in rows then d
    else
      var id := d.batch[d.next];
      var o := Drained(c, Counted(rows[id]), resolved, inserted);
      d.(outcomes := d.outcomes[id := o], next := d.next + 1,
         inserted := d.inserted + if o.Success? then multiset{Entry(id, rows[id].payload)} else multiset{})
  }

  function CommitTxn(s: State, t: nat): State
    requires t in s.open
  {
    var d := s.open[t];
    s.(open := s.open - {t}, rows := Committed(s.rows, d.outcomes), logs := s.logs + d.inserted,
       claims := map id | id in s.claims :: if id in d.outcomes then s.claims[id] + 1 else s.claims[id])
  }

  function DeleteStep(s: State, k: nat): State
    requires k in s.prunes
  {
    s.(prunes := s.prunes - {k}, rows := s.rows - s.prunes[k])
  }

  function Apply(c: Config, s: State, e: Event): State {
    match e
    case Stage(id, payload, createdAt) =>
      if id in s.staged then s
      else s.(rows := s.rows[id := Row(payload, createdAt, Pending, 0)], staged := s.staged[id := payload],
              claims := s.claims[id := 0])
    case Claim(t, batch) =>
      if t in s.open || !IsClaim(s.rows, Locked(s), c.limit, batch) then s
      else s.(open := s.open[t := Txn(batch, map[], multiset{}, 0)])
    case Step(t, resolved, inserted) =>
      if t in s.open then s.(open := s.open[t := StepTxn(c, s.rows, s.open[t], resolved, inserted)]) else s
    case Commit(t) => if t in s.open && s.open[t].next == |s.open[t].batch| then CommitTxn(s, t) else s
    case Abort(t) => s.(open := s.open - {t})
    case FindProcessed(k, ids) =>
      if k in s.prunes || exists id :: id in ids && !(id in s.rows && s.rows[id].status.Processed?) then s
      else s.(prunes := s.prunes[k := ids])
    case DeleteFound(k) => if k in s.prunes then DeleteStep(s, k) else s
  }

  function Exec(c: Config, es: seq<Event>): State {
    if es == [] then Init() else Apply(c, Exec(c, es[..|es| - 1]), es[|es| - 1])
  }

  lemma ExecSnoc(c: Config, es: seq<Event>, e: Event)
    ensures Exec(c, es + [e]) == Apply(c, Exec(c, es), e)
  {
    assert (es + [e])[..|es|] == es;
  }

  // ----- Claims -----

  ghost predicate TxnOk(c: Config, s: State, d: Txn) {
    && |d.batch| <= c.limit && d.next <= |d.batch| && Distinct(d.batch)
    && (forall id :: id in d.batch ==> id in s.rows && s.rows[id].status.Pending?)
    && (forall id :: id in d.outcomes <==> id in d.batch[..d.next])
  }

  ghost predicate Disjoint(a: seq<nat>, b: seq<nat>) {
    forall id :: id in a ==> id !in b
  }

  ghost predicate ClaimsOk(c: Config, s: State) {
    && (forall t :: t in s.open ==> TxnOk(c, s, s.open[t]))
    && (forall t, u :: t in s.open && u in s.open && t != u ==> Disjoint(s.open[t].batch, s.open[u].batch))
    && (forall k, id :: k in s.prunes && id in s.prunes[k] ==>
          id in s.staged && (id in s.rows ==> s.rows[id].status.Processed?))
    && (forall id :: id in s.rows ==> id in s.staged)
  }

  lemma ClaimsClaim(c: Config, s: State, t: nat, batch: seq<nat>)
    requires ClaimsOk(c, s)
    ensures ClaimsOk(c, Apply(c, s, Claim(t, batch)))
  {
    if t !in s.open && IsClaim(s.rows, Locked(s), c.limit, batch) {
      var s' := Apply(c, s, Claim(t, batch));
      forall id | id in batch ensures Claimable(s.rows, Locked(s), id) {}
      assert TxnOk(c, s', s'.open[t]);
      forall u | u in s.open
        ensures Disjoint(batch, s.open[u].batch) && Disjoint(s.open[u].batch, batch) && TxnOk(c, s', s.open[u])
      {
        forall id | id in s.open[u].batch ensures id in Locked(s) {}
        assert TxnOk(c, s, s.open[u]);
      }
    }
  }

  lemma TxnStep(c: Config, s: State, d: Txn, resolved: bool, inserted: bool)
    requires TxnOk(c, s, d)
    ensures TxnOk(c, s, StepTxn(c, s.rows, d, resolved, inserted))
    ensures StepTxn(c, s.rows, d, resolved, inserted).batch == d.batch
  {
    if d.next < |d.batch| { assert d.batch[..d.next + 1] == d.batch[..d.next] + [d.batch[d.next]]; }
  }

  lemma ClaimsStep(c: Config, s: State, t: nat, resolved: bool, inserted: bool)
    requires ClaimsOk(c, s)
    ensures ClaimsOk(c, Apply(c, s, Step(t, resolved, inserted)))
  {
    if t in s.open {
      TxnStep(c, s, s.open[t], resolved, inserted);
      var s' := Apply(c, s, Step(t, resolved, inserted));
      forall u | u in s'.open ensures TxnOk(c, s', s'.open[u]) && s'.open[u].batch == s.open[u].batch {
        if u != t { assert TxnOk(c, s, s.open[u]); }
      }
    }
  }

  /** A commit changes only rows that no other drain has claimed. */
  lemma ClaimsCommit(c: Config, s: State, t: nat)
    requires ClaimsOk(c, s) && t in s.open
    ensures ClaimsOk(c, CommitTxn(s, t))
  {
    var s', d := CommitTxn(s, t), s.open[t];
    assert TxnOk(c, s, d);
    assert d.batch[..d.next] <= d.batch;
    forall u | u in s'.open ensures TxnOk(c, s', s'.open[u]) {
      assert TxnOk(c, s, s.open[u]) && Disjoint(s.open[u].batch, d.batch);
    }
  }

  lemma ClaimsOther(c: Config, s: State, e: Event)
    requires ClaimsOk(c, s) && (e.Stage? || e.Abort? || e.FindProcessed? || e.DeleteFound?)
    ensures ClaimsOk(c, Apply(c, s, e))
  {
    var s' := Apply(c, s, e);
    forall u | u in s'.open ensures TxnOk(c, s', s'.open[u]) { assert TxnOk(c, s, s.open[u]); }
  }

  lemma {:induction false} ClaimsAlwaysOk(c: Config, es: seq<Event>)
    ensures ClaimsOk(c, Exec(c, es))
  {
    if es != [] {
      var s, e := Exec(c, es[..|es| - 1]), es[|es| - 1];
      ClaimsAlwaysOk(c, es[..|es| - 1]);
      match e
      case Claim(t, batch) => ClaimsClaim(c, s, t, batch);
      case Step(t, resolved, inserted) => ClaimsStep(c, s, t, resolved, inserted);
      case Commit(t) => if t in s.open { ClaimsCommit(c, s, t); }
      case _ => ClaimsOther(c, s, e);
    }
  }

  /** In every run, open claims hold at most `limit` pending rows each and no row twice. */
  lemma ClaimsAreDisjoint(c: Config, es: seq<Event>, t: nat, u: nat, id: nat)
    requires t in Exec(c, es).open && u in Exec(c, es).open
    ensures |Exec(c, es).open[t].batch| <= c.limit && Distinct(Exec(c, es).open[t].batch)
    ensures id in Exec(c, es).open[t].batch ==> id in Exec(c, es).rows && Exec(c, es).rows[id].status.Pending?
    ensures t != u && id in Exec(c, es).open[t].batch ==> id !in Exec(c, es).open[u].batch
  {
    ClaimsAlwaysOk(c, es);
    var s := Exec(c, es);
    assert TxnOk(c, s, s.open[t]);
    assert t != u ==> Disjoint(s.open[t].batch, s.open[u].batch);
  }

  // ----- Row by row -----

  /** Copied into the log: processed, or pruned since. */
  predicate Cleared(s: State, id: nat) {
    id in s.staged && (id in s.rows ==> s.rows[id].status.Processed?)
  }

  /** The most often a row can be claimed. */
  function ClaimCap(c: Config): nat {
    if c.maxAttempts <= 2 then 1 else c.maxAttempts - 1
  }

  /** One row: its attempts are its committed claims, and stay below the cap while it is pending. */
  predicate RowOk(c: Config, s: State, id: nat) {
    && (id in s.staged <==> id in s.claims)
    && (id in s.rows ==>
          && id in s.staged && s.rows[id].payload == s.staged[id]
          && s.rows[id].attempts == s.claims[id] <= ClaimCap(c)
          && (s.rows[id].status.Pending? ==> s.rows[id].attempts < ClaimCap(c)))
  }

  /** What an open drain will do to one row and its log entry. */
  predicate EffectOk(c: Config, s: State, d: Txn, m: Entry) {
    && (m.id in d.outcomes && d.outcomes[m.id].Transient? ==>
          m.id in s.rows && s.rows[m.id].attempts + 2 < c.maxAttempts)
    && d.inserted[m] == if Inserts(s, d, m) then 1 else 0
  }

  predicate Inserts(s: State, d: Txn, m: Entry) {
    m.id in d.outcomes && d.outcomes[m.id].Success? && m.id in s.staged && s.staged[m.id] == m.payload
  }

  predicate EntryOk(c: Config, s: State, m: Entry) {
    && RowOk(c, s, m.id)
    && s.logs[m] == (if Cleared(s, m.id) && s.staged[m.id] == m.payload then 1 else 0)
    && forall t :: t in s.open ==> EffectOk(c, s, s.open[t], m)
  }

  /** The drain's own next row. */
  lemma EffectStep(c: Config, s: State, d: Txn, resolved: bool, inserted: bool, m: Entry)
    requires TxnOk(c, s, d) && EffectOk(c, s, d, m) && RowOk(c, s, m.id)
    ensures EffectOk(c, s, StepTxn(c, s.rows, d, resolved, inserted), m)
  {
    if d.next < |d.batch| {
      var id := d.batch[d.next];
      assert id in d.batch && id !in d.batch[..d.next];
      assert id !in d.outcomes;
    }
  }

  lemma EntryStep(c: Config, s: State, t: nat, resolved: bool, inserted: bool, m: Entry)
    requires ClaimsOk(c, s) && EntryOk(c, s, m)
    ensures EntryOk(c, Apply(c, s, Step(t, resolved, inserted)), m)
  {
    if t in s.open {
      var d, s' := s.open[t], Apply(c, s, Step(t, resolved, inserted));
      EffectStep(c, s, d, resolved, inserted, m);
      forall u | u in s'.open ensures EffectOk(c, s', s'.open[u], m) {
        assert u != t ==> EffectOk(c, s, s.open[u], m);
      }
    }
  }

  lemma EntryCommit(c: Config, s: State, t: nat, m: Entry)
    requires ClaimsOk(c, s) && EntryOk(c, s, m) && t in s.open
    ensures EntryOk(c, CommitTxn(s, t), m)
  {
    var d, s' := s.open[t], CommitTxn(s, t);
    assert TxnOk(c, s, d) && EffectOk(c, s, d, m);
    assert m.id in d.outcomes ==> m.id in d.batch;
    forall u | u in s'.open ensures EffectOk(c, s', s'.open[u], m) {
      assert EffectOk(c, s, s.open[u], m) && TxnOk(c, s, s.open[u]) && Disjoint(s.open[u].batch, d.batch);
      assert m.id in s.open[u].outcomes ==> m.id in s.open[u].batch;
    }
  }

  /** Steps that touch neither the row of `m`, nor its log entry, nor a drain that holds it. */
  lemma EntryFrame(c: Config, s: State, s': State, m: Entry)
    requires EntryOk(c, s, m) && s'.logs == s.logs && RowOk(c, s', m.id)
    requires (m.id in s'.staged && m.id !in s.staged ==> m.id in s'.rows && !s'.rows[m.id].status.Processed?)
    requires m.id in s.staged ==> m.id in s'.staged && s'.staged[m.id] == s.staged[m.id]
    requires m.id in s.staged ==> (Cleared(s', m.id) <==> Cleared(s, m.id))
    requires forall t :: t in s'.open ==> EffectOk(c, s', s'.open[t], m)
    ensures EntryOk(c, s', m)
  {
  }

  /** A drain holds only rows that were staged before. */
  lemma EffectStage(c: Config, s: State, s': State, d: Txn, m: Entry)
    requires ClaimsOk(c, s) && TxnOk(c, s, d) && EffectOk(c, s, d, m)
    requires m.id in s.staged ==> m.id in s'.staged && s'.staged[m.id] == s.staged[m.id]
    requires m.id in s.rows ==> m.id in s'.rows && s'.rows[m.id] == s.rows[m.id]
    ensures EffectOk(c, s', d, m)
  {
    assert m.id in d.outcomes ==> m.id in d.batch;
  }

  lemma EntryStage(c: Config, s: State, e: Event, m: Entry)
    requires ClaimsOk(c, s) && EntryOk(c, s, m) && e.Stage?
    ensures EntryOk(c, Apply(c, s, e), m)
  {
    if e.id !in s.staged {
      var s' := Apply(c, s, e);
      forall u | u in s'.open ensures EffectOk(c, s', s'.open[u], m) { EffectStage(c, s, s', s.open[u], m); }
      EntryFrame(c, s, s', m);
    }
  }

  lemma EntryClaim(c: Config, s: State, e: Event, m: Entry)
    requires EntryOk(c, s, m) && (e.Claim? || e.Abort? || e.FindProcessed?)
    ensures EntryOk(c, Apply(c, s, e), m)
  {
    var s' := Apply(c, s, e);
    forall u | u in s'.open ensures EffectOk(c, s', s'.open[u], m) {
      if u in s.open { assert EffectOk(c, s, s.open[u], m); }
    }
    EntryFrame(c, s, s', m);
  }

  /** Only processed rows are deleted, so no drain holds them. */
  lemma EntryDelete(c: Config, s: State, k: nat, m: Entry)
    requires ClaimsOk(c, s) && EntryOk(c, s, m) && k in s.prunes
    ensures EntryOk(c, DeleteStep(s, k), m)
  {
    var s' := DeleteStep(s, k);
    forall u | u in s'.open ensures EffectOk(c, s', s'.open[u], m) {
      assert EffectOk(c, s, s.open[u], m) && TxnOk(c, s, s.open[u]);
      assert m.id in s.open[u].outcomes ==> m.id in s.open[u].batch;
    }
    EntryFrame(c, s, s', m);
  }

  lemma {:induction false} EntriesAlwaysOk(c: Config, es: seq<Event>, m: Entry)
    ensures EntryOk(c, Exec(c, es), m)
  {
    if es != [] {
      var s, e := Exec(c, es[..|es| - 1]), es[|es| - 1];
      EntriesAlwaysOk(c, es[..|es| - 1], m);
      ClaimsAlwaysOk(c, es[..|es| - 1]);
      match e
      case Step(t, resolved, inserted) => EntryStep(c, s, t, resolved, inserted, m);
      case Commit(t) => if t in s.open { EntryCommit(c, s, t, m); }
      case Stage(_, _, _) => EntryStage(c, s, e, m);
      case DeleteFound(k) => if k in s.prunes { EntryDelete(c, s, k, m); }
      case _ => EntryClaim(c, s, e, m);
    }
  }

  // ----- Main theorems -----

  /** In every run the log holds exactly one entry, with the staged payload, for each staged row that
      is processed or gone, and no other entry: nothing is logged twice, and a staged row disappears
      only after it was logged. */
  lemma LoggedExactlyOnce(c: Config, es: seq<Event>, m: Entry)
    ensures var s := Exec(c, es);
            && s.logs[m] <= 1
            && (m in s.logs <==>
                 m.id in s.staged && s.staged[m.id] == m.payload && (m.id !in s.rows || s.rows[m.id].status.Processed?))
  {
    EntriesAlwaysOk(c, es, m);
  }

  /** In every run `attempt_count` is the number of committed claims. */
  lemma AttemptsAreCommittedClaims(c: Config, es: seq<Event>, id: nat)
    requires id in Exec(c, es).rows
    ensures id in Exec(c, es).claims && Exec(c, es).rows[id].attempts == Exec(c, es).claims[id]
    ensures Exec(c, es).rows[id].attempts <= ClaimCap(c)
  {
    EntriesAlwaysOk(c, es, Entry(id, ""));
  }

  // ----- A row that does not resolve -----

  /** The row that a step of drain `t` decides. */
  predicate Decides(s: State, t: nat, id: nat) {
    t in s.open && s.open[t].next < |s.open[t].batch| && s.open[t].batch[s.open[t].next] == id
  }

  /** In the run `es` row `id` never resolves. */
  predicate NeverResolves(c: Config, es: seq<Event>, id: nat) {
    es == [] ||
    var most, e := es[..|es| - 1], es[|es| - 1];
    NeverResolves(c, most, id) && (e.Step? && Decides(Exec(c, most), e.txn, id) ==> !e.resolved)
  }

  /** Untouched, or failed by one claim. */
  predicate Unresolved(s: State, id: nat) {
    && (id in s.staged ==>
         && id in s.rows
         && ((s.rows[id].status.Pending? && s.rows[id].attempts == 0)
             || (s.rows[id].status.Failed? && s.rows[id].attempts == 1)))
    && (forall t :: t in s.open && id in s.open[t].outcomes ==> s.open[t].outcomes[id].Permanent?)
  }

  lemma UnresolvedStep(c: Config, s: State, t: nat, resolved: bool, inserted: bool, id: nat)
    requires ClaimsOk(c, s) && Unresolved(s, id) && (Decides(s, t, id) ==> !resolved)
    ensures Unresolved(Apply(c, s, Step(t, resolved, inserted)), id)
  {
  }

  lemma UnresolvedCommit(c: Config, s: State, t: nat, id: nat)
    requires ClaimsOk(c, s) && Unresolved(s, id) && t in s.open
    ensures Unresolved(CommitTxn(s, t), id)
  {
    var d := s.open[t];
    assert TxnOk(c, s, d);
    assert id in d.outcomes ==> id in d.batch;
  }

  lemma UnresolvedOther(c: Config, s: State, e: Event, id: nat)
    requires ClaimsOk(c, s) && Unresolved(s, id) && !e.Step? && !e.Commit?
    ensures Unresolved(Apply(c, s, e), id)
  {
    if e.DeleteFound? && e.prune in s.prunes { assert id in s.prunes[e.prune] ==> id in s.staged; }
  }

  lemma {:induction false} AlwaysUnresolved(c: Config, es: seq<Event>, id: nat)
    requires NeverResolves(c, es, id)
    ensures Unresolved(Exec(c, es), id)
  {
    if es != [] {
      var s, e := Exec(c, es[..|es| - 1]), es[|es| - 1];
      AlwaysUnresolved(c, es[..|es| - 1], id);
      ClaimsAlwaysOk(c, es[..|es| - 1]);
      match e
      case Step(t, resolved, inserted) => UnresolvedStep(c, s, t, resolved, inserted, id);
      case Commit(t) => if t in s.open { UnresolvedCommit(c, s, t, id); }
      case _ => UnresolvedOther(c, s, e, id);
    }
  }

  /** In every run a row that never resolves is failed by its first committed claim and is never
      logged, retried or pruned. */
  lemma UnresolvableFailsAtOnce(c: Config, es: seq<Event>, id: nat, payload: string)
    requires NeverResolves(c, es, id) && id in Exec(c, es).staged
    ensures var s := Exec(c, es);
            && id in s.rows && id in s.claims && Entry(id, payload) !in s.logs
            && (s.claims[id] == 0 ==> s.rows[id].status == Pending)
            && (s.claims[id] > 0 ==> s.rows[id].status == Failed && s.claims[id] == 1)
  {
    AlwaysUnresolved(c, es, id);
    EntriesAlwaysOk(c, es, Entry(id, payload));
  }

  // ----- A drain left alone -----

  /** The claim of `batch` by drain `t` and its first `i` rows. */
  function DrainRun(
    es: seq<Event>, t: nat, batch: seq<nat>, resolves: nat -> bool, inserts: nat -> bool, i: nat): seq<Event>
    requires i <= |batch|
  {
    if i == 0 then es + [Claim(t, batch)]
    else DrainRun(es, t, batch, resolves, inserts, i - 1) + [Step(t, resolves(batch[i - 1]), inserts(batch[i - 1]))]
  }

  /** A transaction that has decided the first `i` rows of its batch. */
  function Deciding(
    c: Config, rows: Table, batch: seq<nat>, resolves: nat -> bool, inserts: nat -> bool, i: nat): Txn
    requires i <= |batch| && forall id :: id in batch ==> id in rows
  {
    var claimed := Claimed(rows, batch);
    Txn(batch, Outcomes(c, claimed, batch[..i], resolves, inserts),
        Inserted(claimed, Outcomes(c, claimed, batch, resolves, inserts), batch, i), i)
  }

  lemma DecidingStart(c: Config, rows: Table, batch: seq<nat>, resolves: nat -> bool, inserts: nat -> bool)
    requires forall id :: id in batch ==> id in rows
    ensures Deciding(c, rows, batch, resolves, inserts, 0) == Txn(batch, map[], multiset{}, 0)
  {
    assert batch[..0] == [];
  }

  lemma DecidingStep(
    c: Config, rows: Table, batch: seq<nat>, resolves: nat -> bool, inserts: nat -> bool, i: nat)
    requires i < |batch| && forall id :: id in batch ==> id in rows
    ensures StepTxn(c, rows, Deciding(c, rows, batch, resolves, inserts, i), resolves(batch[i]), inserts(batch[i])) ==
            Deciding(c, rows, batch, resolves, inserts, i + 1)
  {
    var id, claimed := batch[i], Claimed(rows, batch);
    assert batch[..i + 1] == batch[..i] + [id];
    assert claimed[id] == Counted(rows[id]) && id in batch;
    var o := Drained(c, claimed[id], resolves(id), inserts(id));
    assert Outcomes(c, claimed, batch[..i + 1], resolves, inserts) ==
           Outcomes(c, claimed, batch[..i], resolves, inserts)[id := o];
  }

  function WithTxn(s: State, t: nat, d: Txn): State {
    s.(open := s.open[t := d])
  }

  lemma TxnClaims(c: Config, es: seq<Event>, t: nat, batch: seq<nat>)
    requires var s := Exec(c, es); t !in s.open && IsClaim(s.rows, Locked(s), c.limit, batch)
    ensures Exec(c, es + [Claim(t, batch)]) == WithTxn(Exec(c, es), t, Txn(batch, map[], multiset{}, 0))
  {
    ExecSnoc(c, es, Claim(t, batch));
  }

  lemma DrainAdvances(c: Config, es: seq<Event>, s: State, t: nat, d: Txn, d': Txn, resolved: bool, inserted: bool)
    requires Exec(c, es) == WithTxn(s, t, d) && d' == StepTxn(c, s.rows, d, resolved, inserted)
    ensures Exec(c, es + [Step(t, resolved, inserted)]) == WithTxn(s, t, d')
  {
    ExecSnoc(c, es, Step(t, resolved, inserted));
    TxnStepped(c, s, t, d, d', resolved, inserted);
  }

  lemma TxnStepped(c: Config, s: State, t: nat, d: Txn, d': Txn, resolved: bool, inserted: bool)
    requires d' == StepTxn(c, s.rows, d, resolved, inserted)
    ensures Apply(c, WithTxn(s, t, d), Step(t, resolved, inserted)) == WithTxn(s, t, d')
  {
    assert s.open[t := d][t := d'] == s.open[t := d'];
  }

  lemma TxnCommits(c: Config, es: seq<Event>, s: State, t: nat, d: Txn)
    requires Exec(c, es) == WithTxn(s, t, d) && t !in s.open && d.next == |d.batch|
    ensures var s' := Exec(c, es + [Commit(t)]);
            s'.rows == Committed(s.rows, d.outcomes) && s'.logs == s.logs + d.inserted && s'.open == s.open
  {
    ExecSnoc(c, es, Commit(t));
    assert s.open[t := d] - {t} == s.open;
  }

  lemma {:induction false} DrainRuns(
    c: Config, es: seq<Event>, t: nat, batch: seq<nat>, resolves: nat -> bool, inserts: nat -> bool, i: nat)
    requires var s := Exec(c, es); t !in s.open && IsClaim(s.rows, Locked(s), c.limit, batch) && i <= |batch|
    requires forall id :: id in batch ==> id in Exec(c, es).rows
    ensures var s := Exec(c, es);
            Exec(c, DrainRun(es, t, batch, resolves, inserts, i)) ==
            WithTxn(s, t, Deciding(c, s.rows, batch, resolves, inserts, i))
  {
    var s := Exec(c, es);
    if i == 0 {
      TxnClaims(c, es, t, batch);
      DecidingStart(c, s.rows, batch, resolves, inserts);
    } else {
      var j: nat := i - 1;
      DrainRuns(c, es, t, batch, resolves, inserts, j);
      DecidingStep(c, s.rows, batch, resolves, inserts, j);
      DrainAdvances(c, DrainRun(es, t, batch, resolves, inserts, j), s, t,
                    Deciding(c, s.rows, batch, resolves, inserts, j), Deciding(c, s.rows, batch, resolves, inserts, i),
                    resolves(batch[j]), inserts(batch[j]));
    }
  }

  lemma ClaimedArePending(s: State, limit: nat, batch: seq<nat>)
    requires IsClaim(s.rows, Locked(s), limit, batch)
    ensures forall id :: id in batch ==> id in s.rows && s.rows[id].status.Pending?
  {
    assert forall id :: id in batch ==> Claimable(s.rows, Locked(s), id);
  }

  /** After any history, and whatever other drains are open, a drain left alone leaves what the job run
      by itself promises: each row of its batch with its own end, and one log entry for each insert. */
  lemma DrainExactly(
    c: Config, es: seq<Event>, t: nat, batch: seq<nat>, resolves: nat -> bool, inserts: nat -> bool, id: nat, m: Entry)
    requires var s := Exec(c, es); t !in s.open && IsClaim(s.rows, Locked(s), c.limit, batch) && id in s.rows
    ensures var s := Exec(c, es);
            var s' := Exec(c, DrainRun(es, t, batch, resolves, inserts, |batch|) + [Commit(t)]);
            && s'.rows.Keys == s.rows.Keys && s'.open == s.open
            && s'.rows[id] == (if id in batch then After(c, s.rows[id], resolves(id), inserts(id)) else s.rows[id])
            && s'.logs[m] == s.logs[m] +
               if m.id in batch && m.id in s.rows && resolves(m.id) && inserts(m.id)
                  && m.payload == s.rows[m.id].payload
               then 1 else 0
  {
    var s, run := Exec(c, es), DrainRun(es, t, batch, resolves, inserts, |batch|);
    ClaimedArePending(s, c.limit, batch);
    DrainRuns(c, es, t, batch, resolves, inserts, |batch|);
    assert batch[..|batch|] == batch;
    TxnCommits(c, run, s, t, Deciding(c, s.rows, batch, resolves, inserts, |batch|));
    DrainedExactly(c, s.rows, batch, resolves, inserts, id);
    InsertedExactly(c, s.rows, batch, resolves, inserts, m);
  }

  /** A staged row is pending with its payload. */
  lemma StageExactly(c: Config, es: seq<Event>, id: nat, payload: string, createdAt: nat)
    requires id !in Exec(c, es).staged
    ensures var s, s' := Exec(c, es), Exec(c, es + [Stage(id, payload, createdAt)]);
            && s'.rows == s.rows[id := Row(payload, createdAt, Pending, 0)]
            && s'.staged == s.staged[id := payload] && s'.logs == s.logs && s'.open == s.open
  {
    ExecSnoc(c, es, Stage(id, payload, createdAt));
  }

  /** A prune left alone removes exactly the processed rows it found. */
  lemma PruneExactly(c: Config, es: seq<Event>, k: nat, ids: set<nat>)
    requires k !in Exec(c, es).prunes
    requires forall id :: id in ids ==> id in Exec(c, es).rows && Exec(c, es).rows[id].status.Processed?
    ensures Exec(c, es + [FindProcessed(k, ids)] + [DeleteFound(k)]).rows == Exec(c, es).rows - ids
  {
    ExecSnoc(c, es, FindProcessed(k, ids));
    ExecSnoc(c, es + [FindProcessed(k, ids)], DeleteFound(k));
  }

  // ----- The cap is reached one claim early -----

  /** Row 0 is alone, pending, and was claimed `attempts` times. */
  predicate OnlyRow(s: State, attempts: nat) {
    && s.open == map[] && 0 in s.rows && s.rows.Keys == {0}
    && s.rows[0].status.Pending? && s.rows[0].attempts == attempts
  }

  /** One pass over row 0 whose insert fails. */
  lemma FailingPass(c: Config, es: seq<Event>, attempts: nat) returns (run: seq<Event>)
    requires OnlyRow(Exec(c, es), attempts) && c.limit >= 1
    ensures var s := Exec(c, run);
            && s.open == map[] && s.rows.Keys == {0}
            && s.rows[0] == Marked(Counted(Exec(c, es).rows[0]),
                                   if attempts + 2 >= c.maxAttempts then Permanent else Transient)
  {
    var s := Exec(c, es);
    LoneClaim(s, c.limit);
    ExecSnoc(c, es, Claim(0, [0]));
    run := es + [Claim(0, [0])];
    assert Exec(c, run) == s.(open := map[0 := Txn([0], map[], multiset{}, 0)]);
    ExecSnoc(c, run, Step(0, true, false));
    run := run + [Step(0, true, false)];
    ExecSnoc(c, run, Commit(0));
    run := run + [Commit(0)];
  }

  lemma LoneClaim(s: State, limit: nat)
    requires s.open == map[] && 0 in s.rows && s.rows.Keys == {0} && s.rows[0].status.Pending? && limit >= 1
    ensures IsClaim(s.rows, Locked(s), limit, [0])
  {
    assert Locked(s) == {};
    assert forall id :: id in s.rows ==> id in s.rows.Keys;
  }

  lemma {:induction false} FailingPasses(c: Config, n: nat) returns (run: seq<Event>)
    requires c.limit >= 1 && (n == 0 || n + 1 < c.maxAttempts)
    ensures OnlyRow(Exec(c, run), n)
  {
    if n == 0 {
      run := [];
      ExecSnoc(c, run, Stage(0, "", 0));
      run := run + [Stage(0, "", 0)];
    } else {
      run := FailingPasses(c, n - 1);
      run := FailingPass(c, run, n - 1);
    }
  }

  /** Row `id` is pending after `n` committed claims. */
  predicate PendingAfter(c: Config, es: seq<Event>, id: nat, n: nat) {
    var s := Exec(c, es);
    id in s.rows && s.rows[id].status.Pending? && s.rows[id].attempts == n
  }

  /** A row whose inserts keep failing is given up after `maxAttempts - 1` claims (at least one): some
      run has a pending row that was claimed `n` times exactly when `n` is below that. */
  lemma PendingAttemptsExactly(c: Config, n: nat)
    requires c.limit >= 1
    ensures (exists es, id :: PendingAfter(c, es, id, n)) <==> n == 0 || n + 1 < c.maxAttempts
  {
    if n == 0 || n + 1 < c.maxAttempts {
      var run := FailingPasses(c, n);
      assert PendingAfter(c, run, 0, n);
    } else {
      forall es, id ensures !PendingAfter(c, es, id, n) { EntriesAlwaysOk(c, es, Entry(id, "")); }
    }
  }
}
