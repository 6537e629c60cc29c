/**
 Any number of mail workers and sweepers over one outbox, interleaved statement by statement. The
 ledger remembers, per row, the body it was inserted with and how often it was claimed, returned to
 pending and emailed.
 */
module MailDelivery {
  import opened Prelude
  import opened MailOutbox

  /** A sending row older than `staleAfter` may be reclaimed; `maxRun` bounds how long after its
      claim a worker may still act (`None`: no bound). */
  datatype Config = Config(staleAfter: nat, maxRun: Option<nat>)

  datatype Ledger = Ledger(body: Body, claims: nat, returned: nat, sends: nat)

  datatype Phase = Loaded | Refused | Owning(at: nat) | Delivered(at: nat) | Failing(at: nat)

  /** A worker has read its row, body included, before it claims it. */
  datatype Worker = Worker(row: nat, seen: Body, phase: Phase)

  datatype Sweep = Sweep(ids: set<nat>, cutoff: int)

  datatype Email = Email(row: nat, body: Body)

  datatype State = State(
    now: nat,
    rows: Table,
    ledger: map<nat, Ledger>,
    workers: map<nat, Worker>,
    sweeps: map<nat, Sweep>,
    emails: set<Email>)

  datatype Event =
    | Tick(elapsed: nat)
    | Insert(row: nat, body: Body, key: Option<string>)
    | Delete(row: nat)
    | Start(worker: nat, row: nat)
    | Claim(worker: nat)
    | Look(worker: nat)
    | Send(worker: nat, delivered: bool, threw: bool)
    | MarkSent(worker: nat, applied: bool, threw: bool)
    | Settle(worker: nat, terminal: bool)
    | Crash(worker: nat)
    | Select(sweep: nat, ids: set<nat>)
    | Reclaim(sweep: nat)

  function Init(): State {
    State(0, map[], map[], map[], map[], {})
  }

  predicate Holding(w: Worker) {
    w.phase.Owning? || w.phase.Delivered? || w.phase.Failing?
  }

  predicate InTime(c: Config, s: State, now: nat) {
    c.maxRun.Some? ==>
      forall w :: w in s.workers && Holding(s.workers[w]) ==> now <= s.workers[w].phase.at + c.maxRun.value
  }

  function To(s: State, w: nat, p: Phase): State
    requires w in s.workers
  {
    s.(workers := s.workers[w := s.workers[w].(phase := p)])
  }

  function Leave(s: State, w: nat): State {
    s.(workers := s.workers - {w})
  }

  function NoteReturn(s: State, id: nat): map<nat, Ledger> {
    if id in s.ledger && Held(s.rows, id)
    then s.ledger[id := s.ledger[id].(returned := s.ledger[id].returned + 1)]
    else s.ledger
  }

  function ClaimStep(s: State, w: nat): State {
    if w !in s.workers || !s.workers[w].phase.Loaded? then s
    else
      var id := s.workers[w].row;
      if Claimable(s.rows, id) && id in s.ledger then
        To(s, w, Owning(s.now)).(
          rows := ClaimRow(s.rows, id, s.now),
          ledger := s.ledger[id := s.ledger[id].(claims := s.ledger[id].claims + 1)])
      else To(s, w, Refused)
  }

  /** The provider call: it may deliver and still throw. */
  function SendStep(s: State, w: nat, delivered: bool, threw: bool): State {
    if w !in s.workers || !s.workers[w].phase.Owning? then s
    else
      var id, at := s.workers[w].row, s.workers[w].phase.at;
      var next := To(s, w, if delivered && !threw then Delivered(at) else Failing(at));
      if delivered && id in s.ledger then
        next.(emails := s.emails + {Email(id, s.workers[w].seen)},
              ledger := s.ledger[id := s.ledger[id].(sends := s.ledger[id].sends + 1)])
      else next
  }

  /** `markMailOutboxSent` is inside the worker's `try`: an error there counts as a failed send. */
  function MarkSentStep(s: State, w: nat, applied: bool, threw: bool): State {
    if w !in s.workers || !s.workers[w].phase.Delivered? then s
    else
      var rows := if applied || !threw then FinishRow(s.rows, s.workers[w].row, Sent, s.now) else s.rows;
      if threw then To(s, w, Failing(s.workers[w].phase.at)).(rows := rows) else Leave(s, w).(rows := rows)
  }

  /** After an error: failed on the final attempt, released otherwise. */
  function SettleStep(s: State, w: nat, terminal: bool): State {
    if w !in s.workers || !s.workers[w].phase.Failing? then s
    else
      var id := s.workers[w].row;
      if terminal then Leave(s, w).(rows := FinishRow(s.rows, id, Failed, s.now))
      else Leave(s, w).(rows := ReleaseRow(s.rows, id, s.now), ledger := NoteReturn(s, id))
  }

  predicate Returned(s: State, sweep: Sweep, id: nat) {
    id in sweep.ids && id in s.rows && Stale(s.rows[id], sweep.cutoff)
  }

  function ReclaimStep(s: State, k: nat): State {
    if k !in s.sweeps then s
    else
      var sweep := s.sweeps[k];
      s.(sweeps := s.sweeps - {k},
         rows := ReclaimRows(s.rows, sweep.ids, sweep.cutoff, s.now),
         ledger := map id | id in s.ledger ::
           if Returned(s, sweep, id) then s.ledger[id].(returned := s.ledger[id].returned + 1) else s.ledger[id])
  }

  function Apply(c: Config, s: State, e: Event): State {
    match e
    case Tick(d) => if InTime(c, s, s.now + d) then s.(now := s.now + d) else s
    case Insert(id, body, key) =>
      if id in s.ledger || id in s.rows || KeyTaken(s.rows, key) then s
      else s.(rows := s.rows[id := Row(body, key, Pending, s.now)], ledger := s.ledger[id := Ledger(body, 0, 0, 0)])
    case Delete(id) => s.(rows := s.rows - {id})
    case Start(w, id) =>
      if w in s.workers || id !in s.rows then s
      else s.(workers := s.workers[w := Worker(id, s.rows[id].body, Loaded)])
    case Claim(w) => ClaimStep(s, w)
    case Look(w) => if w in s.workers && s.workers[w].phase.Refused? then Leave(s, w) else s
    case Send(w, delivered, threw) => SendStep(s, w, delivered, threw)
    case MarkSent(w, applied, threw) => MarkSentStep(s, w, applied, threw)
    case Settle(w, terminal) => SettleStep(s, w, terminal)
    case Crash(w) => Leave(s, w)
    case Select(k, ids) =>
      if k in s.sweeps || exists id :: id in ids && !(id in s.rows && Stale(s.rows[id], s.now - c.staleAfter)) then s
      else s.(sweeps := s.sweeps[k := Sweep(ids, s.now - c.staleAfter)])
    case Reclaim(k) => ReclaimStep(s, k)
  }

  function Exec(c: Config, es: seq<Event>): State {
    if es == [] then Init() else Apply(c, Exec(c, es[..|es| - 1]), es[|es| - 1])
  }

  lemma ExecSnoc(c: Config, es: seq<Event>, e: Event)
    ensures Exec(c, es + [e]) == Apply(c, Exec(c, es), e)
  {
    assert (es + [e])[..|es|] == es;
  }

  // ----- Row by row -----

  /** Claims exceed returns by one exactly while the row is sending; pending and sending rows keep
      their body, terminal rows have lost it. */
  predicate RowOk(s: State, id: nat) {
    && (id in s.rows ==> id in s.ledger)
    && (id in s.ledger ==> s.ledger[id].returned <= s.ledger[id].claims <= s.ledger[id].returned + 1)
    && (id in s.rows ==>
          match s.rows[id].status
          case Pending => s.rows[id].body == s.ledger[id].body && s.ledger[id].claims == s.ledger[id].returned
          case Sending => s.rows[id].body == s.ledger[id].body && s.ledger[id].claims == s.ledger[id].returned + 1
          case _ => s.rows[id].body == SCRUBBED)
  }

  lemma RowOkWorker(c: Config, s: State, e: Event, id: nat)
    requires RowOk(s, id) && (e.Claim? || e.Send? || e.MarkSent? || e.Settle?)
    ensures RowOk(Apply(c, s, e), id)
  {
  }

  lemma RowOkStep(c: Config, s: State, e: Event, id: nat)
    requires RowOk(s, id)
    ensures RowOk(Apply(c, s, e), id)
  {
    if e.Claim? || e.Send? || e.MarkSent? || e.Settle? { RowOkWorker(c, s, e, id); }
  }

  lemma {:induction false} RowsAlwaysOk(c: Config, es: seq<Event>, id: nat)
    ensures RowOk(Exec(c, es), id)
  {
    if es != [] {
      RowsAlwaysOk(c, es[..|es| - 1], id);
      RowOkStep(c, Exec(c, es[..|es| - 1]), es[|es| - 1], id);
    }
  }

  predicate Finished(s: State, id: nat) {
    id in s.ledger && (id in s.rows ==> Terminal(s.rows[id].status))
  }

  lemma FinishedStep(c: Config, s: State, e: Event, id: nat)
    requires Finished(s, id)
    ensures Finished(Apply(c, s, e), id)
    ensures Apply(c, s, e).ledger[id].claims == s.ledger[id].claims
  {
  }

  /** A sent or failed row stays so, scrubbed, and is never claimed again, whatever happens next. */
  lemma {:induction false} FinishedForever(c: Config, es: seq<Event>, more: seq<Event>, id: nat)
    requires Finished(Exec(c, es), id)
    ensures Finished(Exec(c, es + more), id)
    ensures Exec(c, es + more).ledger[id].claims == Exec(c, es).ledger[id].claims
    ensures id in Exec(c, es + more).rows ==> Exec(c, es + more).rows[id].body == SCRUBBED
    decreases |more|
  {
    if more == [] {
      assert es + more == es;
    } else {
      var most, e := more[..|more| - 1], more[|more| - 1];
      FinishedForever(c, es, most, id);
      assert es + more == es + most + [e];
      ExecSnoc(c, es + most, e);
      FinishedStep(c, Exec(c, es + most), e, id);
    }
    RowsAlwaysOk(c, es + more, id);
  }

  // ----- What is emailed -----

  /** The workers that own a row and have not called the provider yet. */
  function Owners(workers: map<nat, Worker>, id: nat): set<nat> {
    set w | w in workers && Owns(workers[w], id)
  }

  predicate Owns(w: Worker, id: nat) {
    w.phase.Owning? && w.row == id
  }

  /** Every email was preceded by a claim of its own. */
  predicate SendsCovered(s: State, id: nat) {
    if id in s.ledger then s.ledger[id].sends + |Owners(s.workers, id)| <= s.ledger[id].claims
    else Owners(s.workers, id) == {}
  }

  ghost predicate OnlyMoves(before: map<nat, Worker>, after: map<nat, Worker>, w: nat) {
    forall k :: k in before || k in after ==> k == w || (k in before && k in after && before[k] == after[k])
  }

  lemma OwnersChange(before: map<nat, Worker>, after: map<nat, Worker>, w: nat, id: nat)
    requires OnlyMoves(before, after, w)
    ensures Owners(after, id) == if w in Owners(after, id) then Owners(before, id) + {w} else Owners(before, id) - {w}
  {
    assert forall k :: k != w ==> (k in Owners(before, id) <==> k in Owners(after, id));
  }

  /** A worker's claim adds an owner with the claim; sending or leaving uses one up. */
  lemma CoveredBy(s: State, s': State, w: nat, id: nat)
    requires SendsCovered(s, id) && OnlyMoves(s.workers, s'.workers, w) && (id in s.ledger <==> id in s'.ledger)
    requires w in Owners(s'.workers, id) && w !in Owners(s.workers, id) ==>
      id in s.ledger && s'.ledger[id].claims == s.ledger[id].claims + 1 && s'.ledger[id].sends == s.ledger[id].sends
    requires w !in Owners(s'.workers, id) && w in Owners(s.workers, id) && id in s.ledger ==>
      s'.ledger[id].claims == s.ledger[id].claims && s'.ledger[id].sends <= s.ledger[id].sends + 1
    requires (w in Owners(s'.workers, id) <==> w in Owners(s.workers, id)) && id in s.ledger ==>
      s'.ledger[id].claims >= s.ledger[id].claims && s'.ledger[id].sends == s.ledger[id].sends
    ensures SendsCovered(s', id)
  {
    OwnersChange(s.workers, s'.workers, w, id);
  }

  lemma CoveredClaim(s: State, w: nat, id: nat)
    requires SendsCovered(s, id)
    ensures SendsCovered(ClaimStep(s, w), id)
  {
    CoveredBy(s, ClaimStep(s, w), w, id);
  }

  lemma CoveredSend(s: State, w: nat, delivered: bool, threw: bool, id: nat)
    requires SendsCovered(s, id)
    ensures SendsCovered(SendStep(s, w, delivered, threw), id)
  {
    CoveredBy(s, SendStep(s, w, delivered, threw), w, id);
  }

  lemma CoveredEnd(c: Config, s: State, e: Event, id: nat)
    requires SendsCovered(s, id) && (e.Start? || e.Look? || e.MarkSent? || e.Settle? || e.Crash?)
    ensures SendsCovered(Apply(c, s, e), id)
  {
    CoveredBy(s, Apply(c, s, e), e.worker, id);
  }

  lemma CoveredStep(c: Config, s: State, e: Event, id: nat)
    requires SendsCovered(s, id)
    ensures SendsCovered(Apply(c, s, e), id)
  {
    match e
    case Claim(w) => CoveredClaim(s, w, id);
    case Send(w, delivered, threw) => CoveredSend(s, w, delivered, threw, id);
    case Tick(_) =>
    case Insert(_, _, _) =>
    case Delete(_) =>
    case Select(_, _) =>
    case Reclaim(_) =>
    case _ => CoveredEnd(c, s, e, id);
  }

  lemma {:induction false} SendsAlwaysCovered(c: Config, es: seq<Event>, id: nat)
    ensures SendsCovered(Exec(c, es), id)
  {
    if es == [] {
      assert Owners(Init().workers, id) == {};
    } else {
      SendsAlwaysCovered(c, es[..|es| - 1], id);
      CoveredStep(c, Exec(c, es[..|es| - 1]), es[|es| - 1], id);
    }
  }

  /** In every run a row is claimed, and emailed, at most once more than it was returned to pending. */
  lemma SendsBoundedByReturns(c: Config, es: seq<Event>, id: nat)
    requires id in Exec(c, es).ledger
    ensures Exec(c, es).ledger[id].sends <= Exec(c, es).ledger[id].claims <= Exec(c, es).ledger[id].returned + 1
  {
    RowsAlwaysOk(c, es, id);
    SendsAlwaysCovered(c, es, id);
  }

  predicate WorkerOk(s: State, w: Worker) {
    && w.row in s.ledger
    && (Holding(w) ==> w.seen == s.ledger[w.row].body)
    && (w.phase.Loaded? ==> w.seen == s.ledger[w.row].body || Finished(s, w.row))
  }

  predicate EmailOk(s: State, m: Email) {
    m.row in s.ledger && m.body == s.ledger[m.row].body
  }

  predicate EmailsOk(s: State) {
    && (forall w :: w in s.workers ==> WorkerOk(s, s.workers[w]))
    && (forall m :: m in s.emails ==> EmailOk(s, m))
  }

  /** No body in the ledger ever changes, and what is finished stays finished. */
  lemma LedgerKeeps(c: Config, s: State, e: Event, id: nat)
    requires id in s.ledger
    ensures id in Apply(c, s, e).ledger && Apply(c, s, e).ledger[id].body == s.ledger[id].body
    ensures Finished(s, id) ==> Finished(Apply(c, s, e), id)
  {
  }

  /** A worker keeps its row and what it read; it becomes a holder only by claiming a pending row. */
  lemma WorkerMoves(c: Config, s: State, e: Event, w: nat)
    requires w in Apply(c, s, e).workers && w in s.workers
    ensures var before, after := s.workers[w], Apply(c, s, e).workers[w];
            && after.row == before.row && after.seen == before.seen
            && (after.phase.Loaded? ==> before.phase.Loaded?)
            && (Holding(after) && !Holding(before) ==> before.phase.Loaded? && Claimable(s.rows, before.row))
  {
  }

  lemma WorkersStep(c: Config, s: State, e: Event, w: nat)
    requires EmailsOk(s) && (forall id :: id in s.rows ==> RowOk(s, id)) && w in Apply(c, s, e).workers
    ensures WorkerOk(Apply(c, s, e), Apply(c, s, e).workers[w])
  {
    if w in s.workers {
      assert WorkerOk(s, s.workers[w]);
      WorkerMoves(c, s, e, w);
      LedgerKeeps(c, s, e, s.workers[w].row);
    } else {
      NewWorkerOk(c, s, e, w);
    }
  }

  lemma NewWorkerOk(c: Config, s: State, e: Event, w: nat)
    requires (forall id :: id in s.rows ==> RowOk(s, id)) && w in Apply(c, s, e).workers && w !in s.workers
    ensures WorkerOk(Apply(c, s, e), Apply(c, s, e).workers[w])
  {
    assert e.Start? && e.row in s.rows && RowOk(s, e.row);
  }

  lemma NewEmailOk(c: Config, s: State, e: Event, m: Email)
    requires EmailsOk(s) && m in Apply(c, s, e).emails
    ensures m in s.emails ||
            (&& e.Send? && e.worker in s.workers && Holding(s.workers[e.worker])
             && m == Email(s.workers[e.worker].row, s.workers[e.worker].seen))
  {
  }

  lemma EmailsStep(c: Config, s: State, e: Event)
    requires EmailsOk(s) && forall id :: id in s.rows ==> RowOk(s, id)
    ensures EmailsOk(Apply(c, s, e))
  {
    var s' := Apply(c, s, e);
    forall w | w in s'.workers ensures WorkerOk(s', s'.workers[w]) { WorkersStep(c, s, e, w); }
    forall m | m in s'.emails ensures EmailOk(s', m) {
      NewEmailOk(c, s, e, m);
      if m in s.emails { assert EmailOk(s, m); } else { assert WorkerOk(s, s.workers[e.worker]); }
      LedgerKeeps(c, s, e, m.row);
    }
  }

  lemma {:induction false} EmailsAlwaysOk(c: Config, es: seq<Event>)
    ensures EmailsOk(Exec(c, es))
  {
    if es != [] {
      var s := Exec(c, es[..|es| - 1]);
      EmailsAlwaysOk(c, es[..|es| - 1]);
      forall id | id in s.rows ensures RowOk(s, id) { RowsAlwaysOk(c, es[..|es| - 1], id); }
      EmailsStep(c, s, es[|es| - 1]);
    }
  }

  /** Although a worker reads the row before it claims it, every email carries the body the row was
      inserted with, never a scrubbed or foreign one. */
  lemma EmailsCarryOriginalBody(c: Config, es: seq<Event>, m: Email)
    requires m in Exec(c, es).emails
    ensures m.row in Exec(c, es).ledger && m.body == Exec(c, es).ledger[m.row].body
  {
    EmailsAlwaysOk(c, es);
  }

  // ----- What the statuses mean -----

  /** The row's original body has been emailed. */
  predicate Emailed(s: State, id: nat) {
    id in s.ledger && s.ledger[id].sends >= 1 && Email(id, s.ledger[id].body) in s.emails
  }

  predicate SentOk(s: State) {
    && (forall id :: id in s.rows && s.rows[id].status.Sent? ==> Emailed(s, id))
    && (forall w :: w in s.workers && s.workers[w].phase.Delivered? ==> Emailed(s, s.workers[w].row))
  }

  lemma EmailedStays(c: Config, s: State, e: Event, id: nat)
    requires Emailed(s, id)
    ensures Emailed(Apply(c, s, e), id)
  {
  }

  /** A row becomes sent only through a worker that has delivered it. */
  lemma NewlySent(c: Config, s: State, e: Event, id: nat)
    requires id in Apply(c, s, e).rows && Apply(c, s, e).rows[id].status.Sent?
    ensures (id in s.rows && s.rows[id].status.Sent?) ||
            (&& e.MarkSent? && e.worker in s.workers
             && s.workers[e.worker].phase.Delivered? && s.workers[e.worker].row == id)
  {
  }

  /** A worker becomes a deliverer only by sending what it read. */
  lemma NewlyDelivered(c: Config, s: State, e: Event, w: nat)
    requires EmailsOk(s) && w in Apply(c, s, e).workers && Apply(c, s, e).workers[w].phase.Delivered?
    ensures w in s.workers && s.workers[w].row == Apply(c, s, e).workers[w].row
    ensures s.workers[w].phase.Delivered? || Emailed(Apply(c, s, e), s.workers[w].row)
  {
    assert w in s.workers ==> WorkerOk(s, s.workers[w]);
    if e.Send? && e.worker == w { assert Apply(c, s, e) == SendStep(s, w, e.delivered, e.threw); }
  }

  lemma SentOkStep(c: Config, s: State, e: Event)
    requires EmailsOk(s) && SentOk(s)
    ensures SentOk(Apply(c, s, e))
  {
    var s' := Apply(c, s, e);
    forall id | id in s'.rows && s'.rows[id].status.Sent? ensures Emailed(s', id) {
      NewlySent(c, s, e, id);
      EmailedStays(c, s, e, id);
    }
    forall w | w in s'.workers && s'.workers[w].phase.Delivered? ensures Emailed(s', s'.workers[w].row) {
      NewlyDelivered(c, s, e, w);
      if s.workers[w].phase.Delivered? { EmailedStays(c, s, e, s.workers[w].row); }
    }
  }

  lemma {:induction false} SentAlwaysOk(c: Config, es: seq<Event>)
    ensures SentOk(Exec(c, es))
  {
    if es != [] {
      SentAlwaysOk(c, es[..|es| - 1]);
      EmailsAlwaysOk(c, es[..|es| - 1]);
      SentOkStep(c, Exec(c, es[..|es| - 1]), es[|es| - 1]);
    }
  }

  /** In every run a row is Sent only after an email of its own, with the body it was inserted with. */
  lemma SentOnlyAfterItsEmail(c: Config, es: seq<Event>, id: nat)
    requires var s := Exec(c, es); id in s.rows && s.rows[id].status.Sent?
    ensures var s := Exec(c, es);
            id in s.ledger && s.ledger[id].sends >= 1 && Email(id, s.ledger[id].body) in s.emails
  {
    SentAlwaysOk(c, es);
    assert Emailed(Exec(c, es), id);
  }

  /** In every run a MarkSent that takes effect leaves its row Sent and scrubbed, a worker that then
      tries to claim it is refused as already sent, and no later claim of it ever succeeds. */
  lemma MarkedSentIsRefused(c: Config, es: seq<Event>, w: nat, threw: bool, more: seq<Event>)
    requires var s := Exec(c, es);
             w in s.workers && s.workers[w].phase.Delivered? && s.workers[w].row in s.rows
    ensures var s, s' := Exec(c, es), Exec(c, es + [MarkSent(w, true, threw)]);
            var id := s.workers[w].row;
            && s'.rows == s.rows[id := Row(Body("", None), s.rows[id].dedupeKey, Sent, s.now)]
            && Refusal(s'.rows, id) == AlreadySent
            && !Claimable(Exec(c, es + [MarkSent(w, true, threw)] + more).rows, id)
  {
    var s, id := Exec(c, es), Exec(c, es).workers[w].row;
    ExecSnoc(c, es, MarkSent(w, true, threw));
    RowsAlwaysOk(c, es, id);
    FinishedForever(c, es + [MarkSent(w, true, threw)], more, id);
  }

  /** A new row is pending with its body, and nothing has been sent for it. */
  lemma InsertExactly(c: Config, es: seq<Event>, id: nat, body: Body, key: Option<string>)
    requires var s := Exec(c, es); id !in s.ledger && id !in s.rows
    requires key.Some? ==> forall other :: other in Exec(c, es).rows ==> Exec(c, es).rows[other].dedupeKey != key
    ensures var s, s' := Exec(c, es), Exec(c, es + [Insert(id, body, key)]);
            && s'.rows == s.rows[id := Row(body, key, Pending, s.now)]
            && s'.ledger == s.ledger[id := Ledger(body, 0, 0, 0)] && s'.emails == s.emails
  {
    ExecSnoc(c, es, Insert(id, body, key));
  }

  /** A worker that starts and claims a pending row holds it, and the row is in flight. */
  lemma ClaimHolds(c: Config, es: seq<Event>, w: nat, id: nat)
    requires var s := Exec(c, es); w !in s.workers && id in s.rows && s.rows[id].status.Pending?
    ensures var s, s' := Exec(c, es), Exec(c, es + [Start(w, id)] + [Claim(w)]);
            && s'.rows == s.rows[id := Row(s.rows[id].body, s.rows[id].dedupeKey, Sending, s.now)]
            && s'.workers == s.workers[w := Worker(id, s.rows[id].body, Owning(s.now))]
            && s'.emails == s.emails && s'.now == s.now && id in s'.ledger
  {
    RowsAlwaysOk(c, es, id);
    ExecSnoc(c, es, Start(w, id));
    ExecSnoc(c, es + [Start(w, id)], Claim(w));
  }

  lemma SendGoesOn(c: Config, es: seq<Event>, w: nat, id: nat, body: Body, at: nat, delivered: bool, threw: bool)
    requires var s := Exec(c, es);
             w in s.workers && s.workers[w] == Worker(id, body, Owning(at)) && id in s.ledger
    ensures var s, s' := Exec(c, es), Exec(c, es + [Send(w, delivered, threw)]);
            && s'.rows == s.rows && s'.now == s.now
            && s'.workers ==
               s.workers[w := Worker(id, body, if delivered && !threw then Delivered(at) else Failing(at))]
            && s'.emails == s.emails + if delivered then {Email(id, body)} else {}
  {
    ExecSnoc(c, es, Send(w, delivered, threw));
  }

  /** After any history, a worker left alone with a pending row whose email is delivered leaves the row
      Sent and scrubbed, and one email with the row's body. */
  lemma DeliveryExactly(c: Config, es: seq<Event>, w: nat, id: nat)
    requires var s := Exec(c, es); w !in s.workers && id in s.rows && s.rows[id].status.Pending?
    ensures var s := Exec(c, es);
            var s' := Exec(c, es + [Start(w, id)] + [Claim(w)] + [Send(w, true, false)] + [MarkSent(w, true, false)]);
            && s'.rows == s.rows[id := Row(Body("", None), s.rows[id].dedupeKey, Sent, s.now)]
            && s'.emails == s.emails + {Email(id, s.rows[id].body)} && s'.workers == s.workers
  {
    var s, claimed := Exec(c, es), es + [Start(w, id)] + [Claim(w)];
    ClaimHolds(c, es, w, id);
    SendGoesOn(c, claimed, w, id, s.rows[id].body, s.now, true, false);
    SentEnds(c, claimed + [Send(w, true, false)], w, id, s.rows[id], s.now);
    assert s.workers[w := Worker(id, s.rows[id].body, Delivered(s.now))] - {w} == s.workers;
  }

  lemma SentEnds(c: Config, es: seq<Event>, w: nat, id: nat, row: Row, at: nat)
    requires var s := Exec(c, es);
             && w in s.workers && s.workers[w] == Worker(id, row.body, Delivered(at)) && s.now == at
             && id in s.rows && s.rows[id] == Row(row.body, row.dedupeKey, Sending, at)
    ensures var s, s' := Exec(c, es), Exec(c, es + [MarkSent(w, true, false)]);
            && s'.rows == s.rows[id := Row(Body("", None), row.dedupeKey, Sent, at)]
            && s'.emails == s.emails && s'.workers == s.workers - {w}
  {
    ExecSnoc(c, es, MarkSent(w, true, false));
  }

  /** After any history, a worker left alone whose provider call throws leaves the row Failed and
      scrubbed on its final attempt, and pending with its body on any other. */
  lemma FailureExactly(c: Config, es: seq<Event>, w: nat, id: nat, delivered: bool, terminal: bool)
    requires var s := Exec(c, es); w !in s.workers && id in s.rows && s.rows[id].status.Pending?
    ensures var s, row := Exec(c, es), Exec(c, es).rows[id];
            var s' := Exec(c, es + [Start(w, id)] + [Claim(w)] + [Send(w, delivered, true)] + [Settle(w, terminal)]);
            && s'.rows ==
               s.rows[id := if terminal then Row(Body("", None), row.dedupeKey, Failed, s.now)
                            else Row(row.body, row.dedupeKey, Pending, s.now)]
            && s'.emails == s.emails + (if delivered then {Email(id, row.body)} else {}) && s'.workers == s.workers
  {
    var s, claimed := Exec(c, es), es + [Start(w, id)] + [Claim(w)];
    ClaimHolds(c, es, w, id);
    SendGoesOn(c, claimed, w, id, s.rows[id].body, s.now, delivered, true);
    SettleEnds(c, claimed + [Send(w, delivered, true)], w, id, s.rows[id], s.now, terminal);
    assert s.workers[w := Worker(id, s.rows[id].body, Failing(s.now))] - {w} == s.workers;
  }

  /** A delivered email whose MarkSent takes effect but throws leaves the row Failed if the attempt was
      the final one, and Sent otherwise. */
  lemma LostReplyFailsExactlyOnFinalAttempt(c: Config, es: seq<Event>, w: nat, terminal: bool)
    requires var s := Exec(c, es);
             w in s.workers && s.workers[w].phase.Delivered? && s.workers[w].row in s.rows
    ensures var s, s' := Exec(c, es), Exec(c, es + [MarkSent(w, true, true)] + [Settle(w, terminal)]);
            var id := s.workers[w].row;
            && s'.rows ==
               s.rows[id := Row(Body("", None), s.rows[id].dedupeKey, if terminal then Failed else Sent, s.now)]
            && s'.workers == s.workers - {w} && s'.emails == s.emails
  {
    var s, id := Exec(c, es), Exec(c, es).workers[w].row;
    var failing := s.workers[w].(phase := Failing(s.workers[w].phase.at));
    var sent := s.rows[id := Row(Body("", None), s.rows[id].dedupeKey, Sent, s.now)];
    ExecSnoc(c, es, MarkSent(w, true, true));
    assert Exec(c, es + [MarkSent(w, true, true)]) == s.(workers := s.workers[w := failing], rows := sent);
    ExecSnoc(c, es + [MarkSent(w, true, true)], Settle(w, terminal));
    assert s.workers[w := failing] - {w} == s.workers - {w};
  }

  /** A worker that finds its row already claimed, sent or failed changes nothing. */
  lemma RefusedWorkerChangesNothing(c: Config, es: seq<Event>, w: nat, id: nat)
    requires var s := Exec(c, es); w !in s.workers && id in s.rows && !s.rows[id].status.Pending?
    ensures Exec(c, es + [Start(w, id)] + [Claim(w)] + [Look(w)]) == Exec(c, es)
  {
    ExecSnoc(c, es, Start(w, id));
    RefusedLeaves(c, es + [Start(w, id)], Exec(c, es), w, Worker(id, Exec(c, es).rows[id].body, Loaded));
  }

  lemma RefusedLeaves(c: Config, es: seq<Event>, s: State, w: nat, loaded: Worker)
    requires Exec(c, es) == s.(workers := s.workers[w := loaded]) && w !in s.workers && loaded.phase.Loaded?
    requires loaded.row in s.rows && !s.rows[loaded.row].status.Pending?
    ensures Exec(c, es + [Claim(w)] + [Look(w)]) == s
  {
    ExecSnoc(c, es, Claim(w));
    assert s.workers[w := loaded][w := loaded.(phase := Refused)] == s.workers[w := loaded.(phase := Refused)];
    ExecSnoc(c, es + [Claim(w)], Look(w));
    assert s.workers[w := loaded.(phase := Refused)] - {w} == s.workers;
  }

  lemma SettleEnds(c: Config, es: seq<Event>, w: nat, id: nat, row: Row, at: nat, terminal: bool)
    requires var s := Exec(c, es);
             && w in s.workers && s.workers[w] == Worker(id, row.body, Failing(at)) && s.now == at
             && id in s.rows && s.rows[id] == Row(row.body, row.dedupeKey, Sending, at)
    ensures var s, s' := Exec(c, es), Exec(c, es + [Settle(w, terminal)]);
            && s'.rows ==
               s.rows[id := if terminal then Row(Body("", None), row.dedupeKey, Failed, at)
                            else Row(row.body, row.dedupeKey, Pending, at)]
            && s'.emails == s.emails && s'.workers == s.workers - {w}
  {
    ExecSnoc(c, es, Settle(w, terminal));
  }

  /** A sweep left alone returns exactly its stale rows to pending. */
  lemma SweepReturnsStaleRows(c: Config, es: seq<Event>, k: nat, ids: set<nat>, id: nat)
    requires var s := Exec(c, es);
             && k !in s.sweeps && id in s.rows
             && forall i :: i in ids ==>
                  i in s.rows && s.rows[i].status.Sending? && s.rows[i].updatedAt + c.staleAfter < s.now
    ensures var s, s' := Exec(c, es), Exec(c, es + [Select(k, ids)] + [Reclaim(k)]);
            && id in s'.rows && s'.workers == s.workers && s'.emails == s.emails
            && s'.rows[id] ==
               if id in ids then Row(s.rows[id].body, s.rows[id].dedupeKey, Pending, s.now) else s.rows[id]
  {
    SelectTakes(c, es, k, ids);
    ExecSnoc(c, es + [Select(k, ids)], Reclaim(k));
  }

  lemma SelectTakes(c: Config, es: seq<Event>, k: nat, ids: set<nat>)
    requires var s := Exec(c, es);
             && k !in s.sweeps
             && forall i :: i in ids ==>
                  i in s.rows && s.rows[i].status.Sending? && s.rows[i].updatedAt + c.staleAfter < s.now
    ensures var s := Exec(c, es);
            Exec(c, es + [Select(k, ids)]) == s.(sweeps := s.sweeps[k := Sweep(ids, s.now - c.staleAfter)])
  {
    ExecSnoc(c, es, Select(k, ids));
  }

  // ----- Exclusive delivery -----

  predicate Exclusive(s: State) {
    forall v, w :: v in s.workers && w in s.workers && v != w && Holding(s.workers[v]) && Holding(s.workers[w]) ==>
      s.workers[v].row != s.workers[w].row
  }

  /** A holder's row carries the time of its claim, or is finished. */
  predicate HolderOk(c: Config, s: State, w: Worker) {
    && w.row in s.ledger
    && (Holding(w) ==>
         && (w.row in s.rows ==>
               || Terminal(s.rows[w.row].status)
               || (s.rows[w.row].status.Sending? && s.rows[w.row].updatedAt == w.phase.at))
         && c.maxRun.Some? && s.now <= w.phase.at + c.maxRun.value)
  }

  predicate HoldersOk(c: Config, s: State) {
    && Exclusive(s)
    && (forall w :: w in s.workers ==> HolderOk(c, s, s.workers[w]))
    && (forall k :: k in s.sweeps ==> s.sweeps[k].cutoff + c.staleAfter <= s.now)
    && (forall id :: id in s.rows ==> id in s.ledger)
  }

  lemma HoldersReclaim(c: Config, s: State, k: nat)
    requires HoldersOk(c, s) && c.maxRun.Some? && c.maxRun.value <= c.staleAfter
    ensures HoldersOk(c, ReclaimStep(s, k))
  {
    var s' := ReclaimStep(s, k);
    forall w | w in s'.workers ensures HolderOk(c, s', s'.workers[w]) {
      assert HolderOk(c, s, s.workers[w]);
    }
  }

  lemma HoldersClaim(c: Config, s: State, w: nat)
    requires HoldersOk(c, s) && c.maxRun.Some?
    ensures HoldersOk(c, ClaimStep(s, w))
  {
    var s' := ClaimStep(s, w);
    forall v | v in s'.workers ensures HolderOk(c, s', s'.workers[v]) {
      assert HolderOk(c, s, s.workers[v]);
    }
  }

  /** A holder's own statements touch only its own row. */
  lemma HoldersSend(c: Config, s: State, w: nat, delivered: bool, threw: bool)
    requires HoldersOk(c, s)
    ensures HoldersOk(c, SendStep(s, w, delivered, threw))
  {
    var s' := SendStep(s, w, delivered, threw);
    forall v | v in s'.workers ensures HolderOk(c, s', s'.workers[v]) {
      assert HolderOk(c, s, s.workers[v]);
    }
  }

  lemma HoldersMarkSent(c: Config, s: State, w: nat, applied: bool, threw: bool)
    requires HoldersOk(c, s)
    ensures HoldersOk(c, MarkSentStep(s, w, applied, threw))
  {
    var s' := MarkSentStep(s, w, applied, threw);
    forall v | v in s'.workers ensures HolderOk(c, s', s'.workers[v]) {
      assert HolderOk(c, s, s.workers[v]);
    }
  }

  lemma HoldersSettle(c: Config, s: State, w: nat, terminal: bool)
    requires HoldersOk(c, s)
    ensures HoldersOk(c, SettleStep(s, w, terminal))
  {
    var s' := SettleStep(s, w, terminal);
    forall v | v in s'.workers ensures HolderOk(c, s', s'.workers[v]) {
      assert HolderOk(c, s, s.workers[v]);
    }
  }

  lemma HoldersOther(c: Config, s: State, e: Event)
    requires HoldersOk(c, s) && !e.Reclaim? && !e.Claim? && !e.Send? && !e.MarkSent? && !e.Settle?
    ensures HoldersOk(c, Apply(c, s, e))
  {
    var s' := Apply(c, s, e);
    forall v | v in s'.workers ensures HolderOk(c, s', s'.workers[v]) {
      if v in s.workers { assert HolderOk(c, s, s.workers[v]); }
    }
  }

  lemma {:induction false} HoldersAlwaysOk(c: Config, es: seq<Event>)
    requires c.maxRun.Some? && c.maxRun.value <= c.staleAfter
    ensures HoldersOk(c, Exec(c, es))
  {
    if es != [] {
      var s, e := Exec(c, es[..|es| - 1]), es[|es| - 1];
      HoldersAlwaysOk(c, es[..|es| - 1]);
      if e.Reclaim? { HoldersReclaim(c, s, e.sweep); }
      else if e.Claim? { HoldersClaim(c, s, e.worker); }
      else if e.Send? { HoldersSend(c, s, e.worker, e.delivered, e.threw); }
      else if e.MarkSent? { HoldersMarkSent(c, s, e.worker, e.applied, e.threw); }
      else if e.Settle? { HoldersSettle(c, s, e.worker, e.terminal); }
      else { HoldersOther(c, s, e); }
    }
  }

  lemma TwoLoaded(c: Config) returns (run: seq<Event>)
    ensures Exec(c, run) == State(0, map[0 := Row(SCRUBBED, None, Pending, 0)], map[0 := Ledger(SCRUBBED, 0, 0, 0)],
              map[0 := Worker(0, SCRUBBED, Loaded), 1 := Worker(0, SCRUBBED, Loaded)], map[], {})
  {
    run := [];
    ExecSnoc(c, run, Insert(0, SCRUBBED, None));
    run := run + [Insert(0, SCRUBBED, None)];
    ExecSnoc(c, run, Start(0, 0));
    run := run + [Start(0, 0)];
    ExecSnoc(c, run, Start(1, 0));
    run := run + [Start(1, 0)];
  }

  /** A row claimed by worker 0 at time 0, with worker 1 loaded. */
  lemma FirstClaim(c: Config) returns (run: seq<Event>)
    ensures var s := Exec(c, run);
            && s.now == 0 && s.sweeps == map[] && 0 in s.ledger
            && s.workers == map[0 := Worker(0, SCRUBBED, Owning(0)), 1 := Worker(0, SCRUBBED, Loaded)]
            && s.rows == map[0 := Row(SCRUBBED, None, Sending, 0)]
  {
    run := TwoLoaded(c);
    ExecSnoc(c, run, Claim(0));
    run := run + [Claim(0)];
  }

  /** Its claim goes stale while it still runs, and the sweeper takes the row back. */
  lemma StaleClaimReturned(c: Config) returns (run: seq<Event>)
    requires c.maxRun.None? || c.staleAfter < c.maxRun.value
    ensures var s := Exec(c, run);
            && s.workers == map[0 := Worker(0, SCRUBBED, Owning(0)), 1 := Worker(0, SCRUBBED, Loaded)]
            && Claimable(s.rows, 0) && 0 in s.ledger
  {
    run := FirstClaim(c);
    ExecSnoc(c, run, Tick(c.staleAfter + 1));
    run := run + [Tick(c.staleAfter + 1)];
    ExecSnoc(c, run, Select(0, {0}));
    run := run + [Select(0, {0})];
    ExecSnoc(c, run, Reclaim(0));
    run := run + [Reclaim(0)];
  }

  lemma LongRunOverlaps(c: Config) returns (run: seq<Event>)
    requires c.maxRun.None? || c.staleAfter < c.maxRun.value
    ensures !Exclusive(Exec(c, run))
  {
    run := StaleClaimReturned(c);
    ExecSnoc(c, run, Claim(1));
    run := run + [Claim(1)];
    assert 0 in Exec(c, run).workers && 1 in Exec(c, run).workers;
  }

  /** No two workers ever deliver the same row at once, in every run, exactly when every worker ends
      before its claim counts as stale. */
  lemma ExclusiveExactlyWhenRunsFit(c: Config)
    ensures (forall es :: Exclusive(Exec(c, es))) <==> c.maxRun.Some? && c.maxRun.value <= c.staleAfter
  {
    if c.maxRun.Some? && c.maxRun.value <= c.staleAfter {
      forall es ensures Exclusive(Exec(c, es)) { HoldersAlwaysOk(c, es); }
    } else {
      var run := LongRunOverlaps(c);
    }
  }
}
