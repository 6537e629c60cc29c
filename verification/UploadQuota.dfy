/**
 The PENDING-upload quota of `upload.service.ts` / `upload.repository.ts`: each reservation is a
 transaction that takes the organization advisory lock, then the user advisory lock, counts, and
 inserts. Statements are atomic; under READ COMMITTED a count sees every committed row. Locks are
 released when the transaction ends.
 */
module UploadQuota {
  import opened Prelude

  datatype Status = Pending | Uploaded | Failed

  datatype Row = Row(user: nat, organization: Option<nat>, status: Status, deleted: bool)

  predicate Active(r: Row) {
    r.status.Pending? && !r.deleted
  }

  /** `countPendingByOrganizationId`. */
  function OrganizationPending(rows: map<nat, Row>, organization: nat): set<nat> {
    set id | id in rows && Active(rows[id]) && rows[id].organization == Some(organization)
  }

  /** `countPendingByUserId` as row-level security shows it: the user's rows of one scope, either
      the personal one (`None`) or one organization. */
  function UserPending(rows: map<nat, Row>, user: nat, scope: Option<nat>): set<nat> {
    set id | id in rows && Active(rows[id]) && rows[id].user == user && rows[id].organization == scope
  }

  datatype Config = Config(userCap: nat, organizationCap: nat)

  datatype QuotaError = OrganizationQuotaExceeded(pending: nat) | UserQuotaExceeded(pending: nat)

  predicate OrganizationFull(c: Config, rows: map<nat, Row>, organization: Option<nat>) {
    organization.Some? && |OrganizationPending(rows, organization.value)| >= c.organizationCap
  }

  /** The uploads table, and one reservation run by itself. */
  class Uploads {
    var rows: map<nat, Row>
    var nextId: nat

    constructor ()
      ensures rows == map[] && nextId == 0
    {
      rows, nextId := map[], 0;
    }

    method Reserve(c: Config, user: nat, organization: Option<nat>) returns (r: Result<nat, QuotaError>)
      requires nextId !in rows
      modifies this
      ensures r.Ok? <==>
        && (organization.Some? ==> |OrganizationPending(old(rows), organization.value)| < c.organizationCap)
        && |UserPending(old(rows), user, organization)| < c.userCap
      ensures r.Ok? ==> r.value == old(nextId) && nextId == old(nextId) + 1
                        && rows == old(rows)[r.value := Row(user, organization, Pending, false)]
      ensures r.Err? ==> rows == old(rows) && nextId == old(nextId)
      ensures r.Err? && OrganizationFull(c, old(rows), organization) ==>
        r.error == OrganizationQuotaExceeded(|OrganizationPending(old(rows), organization.value)|)
      ensures r.Err? && !OrganizationFull(c, old(rows), organization) ==>
        r.error == UserQuotaExceeded(|UserPending(old(rows), user, organization)|)
      ensures forall id :: id in UserPending(old(rows), user, organization) <==>
        id in old(rows) && old(rows)[id].status.Pending? && !old(rows)[id].deleted
        && old(rows)[id].user == user && old(rows)[id].organization == organization
      ensures organization.Some? ==> forall id :: id in OrganizationPending(old(rows), organization.value) <==>
        id in old(rows) && old(rows)[id].status.Pending? && !old(rows)[id].deleted
        && old(rows)[id].organization == organization
    {
      if organization.Some? {
        var organizationCount := |OrganizationPending(rows, organization.value)|;
        if organizationCount >= c.organizationCap {
          return Err(OrganizationQuotaExceeded(organizationCount));
        }
      }
      var pendingCount := |UserPending(rows, user, organization)|;
      if pendingCount >= c.userCap {
        return Err(UserQuotaExceeded(pendingCount));
      }
      rows := rows[nextId := Row(user, organization, Pending, false)];
      nextId := nextId + 1;
      return Ok(nextId - 1);
    }
  }

  // ----- Concurrent reservations -----

  /** How far a reservation has got. A personal upload skips the organization steps. */
  datatype Phase = Begun | OrganizationLocked | UserLocked | OrganizationChecked | UserChecked | Inserted

  function Rank(p: Phase): nat {
    match p
    case Begun => 0
    case OrganizationLocked => 1
    case UserLocked => 2
    case OrganizationChecked => 3
    case UserChecked => 4
    case Inserted => 5
  }

  datatype Reservation = Reservation(user: nat, organization: Option<nat>, phase: Phase)

  datatype State = State(rows: map<nat, Row>, nextId: nat, open: map<nat, Reservation>)

  datatype Event =
    | Begin(txn: nat, user: nat, organization: Option<nat>)
    | Step(txn: nat)
    | Abort(txn: nat)
    | Settle(id: nat, status: Status)
    | SoftDelete(id: nat)
    | HardDelete(id: nat)

  function Init(): State {
    State(map[], 0, map[])
  }

  predicate WaitsForOrganization(r: Reservation) {
    r.phase.Begun? && r.organization.Some?
  }

  predicate WaitsForUser(r: Reservation) {
    (r.phase.Begun? && r.organization.None?) || r.phase.OrganizationLocked?
  }

  /** An advisory lock is held from its acquisition until the transaction ends. */
  predicate HoldsOrganization(r: Reservation, o: nat) {
    r.organization == Some(o) && !r.phase.Begun?
  }

  predicate HoldsUser(r: Reservation, u: nat) {
    r.user == u && Rank(r.phase) >= 2
  }

  /** `t` is blocked on a lock that `holder` holds. */
  predicate WaitsFor(s: State, t: nat, holder: nat) {
    && t in s.open && holder in s.open
    && ((WaitsForOrganization(s.open[t]) && HoldsOrganization(s.open[holder], s.open[t].organization.value))
        || (WaitsForUser(s.open[t]) && HoldsUser(s.open[holder], s.open[t].user)))
  }

  predicate CanStep(s: State, t: nat) {
    t in s.open && forall holder :: holder in s.open ==> !WaitsFor(s, t, holder)
  }

  /** Commit, rollback or crash: the transaction leaves, and its locks with it. */
  function End(s: State, t: nat): State {
    s.(open := s.open - {t})
  }

  function Move(s: State, t: nat, p: Phase): State
    requires t in s.open
  {
    s.(open := s.open[t := s.open[t].(phase := p)])
  }

  /** The next statement of reservation `t`: a lock, a count with its quota check, the insert, or
      the commit. */
  function Advance(c: Config, s: State, t: nat): State
    requires CanStep(s, t)
  {
    var r := s.open[t];
    if WaitsForOrganization(r) then
      Move(s, t, OrganizationLocked)
    else if WaitsForUser(r) then
      Move(s, t, UserLocked)
    else if r.phase.UserLocked? && r.organization.Some? then
      if |OrganizationPending(s.rows, r.organization.value)| >= c.organizationCap then End(s, t)
      else Move(s, t, OrganizationChecked)
    else if r.phase.UserLocked? || r.phase.OrganizationChecked? then
      if |UserPending(s.rows, r.user, r.organization)| >= c.userCap then End(s, t) else Move(s, t, UserChecked)
    else if r.phase.UserChecked? then Move(s, t, Inserted)
    else
      End(s, t).(rows := s.rows[s.nextId := Row(r.user, r.organization, Pending, false)], nextId := s.nextId + 1)
  }

  function Apply(c: Config, s: State, e: Event): State {
    match e
    case Begin(t, user, organization) =>
      if t in s.open then s else s.(open := s.open[t := Reservation(user, organization, Begun)])
    case Step(t) => if CanStep(s, t) then Advance(c, s, t) else s
    case Abort(t) => if t in s.open then End(s, t) else s
    case Settle(id, status) =>
      if id in s.rows && !status.Pending? then s.(rows := s.rows[id := s.rows[id].(status := status)]) else s
    case SoftDelete(id) =>
      if id in s.rows then s.(rows := s.rows[id := s.rows[id].(deleted := true)]) else s
    case HardDelete(id) => s.(rows := s.rows - {id})
  }

  function Exec(c: Config, es: seq<Event>): State {
    if es == [] then Init() else Apply(c, Exec(c, es[..|es| - 1]), es[|es| - 1])
  }

  // ----- Locks -----

  /** Two reservations hold the same lock. */
  predicate Clash(a: Reservation, b: Reservation) {
    || (&& a.organization.Some?
        && HoldsOrganization(a, a.organization.value) && HoldsOrganization(b, a.organization.value))
    || (HoldsUser(a, a.user) && HoldsUser(b, a.user))
  }

  predicate Exclusive(s: State) {
    forall t, t' :: t in s.open && t' in s.open && t != t' ==> !Clash(s.open[t], s.open[t'])
  }

  predicate PersonalSkips(r: Reservation) {
    r.organization.None? ==> !r.phase.OrganizationLocked? && !r.phase.OrganizationChecked?
  }

  predicate LocksOk(s: State) {
    Exclusive(s) && forall t :: t in s.open ==> PersonalSkips(s.open[t])
  }

  lemma LocksAdvance(c: Config, s: State, t: nat)
    requires LocksOk(s) && CanStep(s, t)
    ensures LocksOk(Advance(c, s, t))
  {
    var s' := Advance(c, s, t);
    assert PersonalSkips(s.open[t]);
    forall other | other in s'.open && t in s'.open && other != t
      ensures !Clash(s'.open[t], s'.open[other]) && !Clash(s'.open[other], s'.open[t])
    {
      assert s'.open[other] == s.open[other] && !WaitsFor(s, t, other);
      assert !Clash(s.open[t], s.open[other]);
    }
  }

  lemma LocksStep(c: Config, s: State, e: Event)
    requires LocksOk(s)
    ensures LocksOk(Apply(c, s, e))
  {
    if e.Step? && CanStep(s, e.txn) { LocksAdvance(c, s, e.txn); }
  }

  lemma {:induction false} LocksAlwaysOk(c: Config, es: seq<Event>)
    ensures LocksOk(Exec(c, es))
  {
    if es != [] {
      LocksAlwaysOk(c, es[..|es| - 1]);
      LocksStep(c, Exec(c, es[..|es| - 1]), es[|es| - 1]);
    }
  }

  // ----- Counting -----

  /** No pending row of `rows'` is new. */
  predicate NoNewPending(rows: map<nat, Row>, rows': map<nat, Row>) {
    forall id :: id in rows' && Active(rows'[id]) ==> id in rows && rows[id] == rows'[id]
  }

  lemma CountsShrink(rows: map<nat, Row>, rows': map<nat, Row>, o: nat, u: nat, scope: Option<nat>)
    requires NoNewPending(rows, rows')
    ensures |OrganizationPending(rows', o)| <= |OrganizationPending(rows, o)|
    ensures |UserPending(rows', u, scope)| <= |UserPending(rows, u, scope)|
  {
    SubsetSize(OrganizationPending(rows', o), OrganizationPending(rows, o));
    SubsetSize(UserPending(rows', u, scope), UserPending(rows, u, scope));
  }

  lemma OrganizationGrows(rows: map<nat, Row>, id: nat, r: Row, o: nat)
    requires id !in rows && Active(r)
    ensures |OrganizationPending(rows[id := r], o)| ==
            |OrganizationPending(rows, o)| + if r.organization == Some(o) then 1 else 0
  {
    if r.organization == Some(o) {
      assert OrganizationPending(rows[id := r], o) == OrganizationPending(rows, o) + {id};
    } else {
      assert OrganizationPending(rows[id := r], o) == OrganizationPending(rows, o);
    }
  }

  lemma UserGrows(rows: map<nat, Row>, id: nat, r: Row, u: nat, scope: Option<nat>)
    requires id !in rows && Active(r)
    ensures |UserPending(rows[id := r], u, scope)| ==
            |UserPending(rows, u, scope)| + if r.user == u && r.organization == scope then 1 else 0
  {
    if r.user == u && r.organization == scope {
      assert UserPending(rows[id := r], u, scope) == UserPending(rows, u, scope) + {id};
    } else {
      assert UserPending(rows[id := r], u, scope) == UserPending(rows, u, scope);
    }
  }

  // ----- The quota invariant -----

  ghost predicate CapsHold(c: Config, rows: map<nat, Row>) {
    && (forall o: nat :: |OrganizationPending(rows, o)| <= c.organizationCap)
    && (forall u: nat, scope :: |UserPending(rows, u, scope)| <= c.userCap)
  }

  /** A reservation past its check still has room: only the holder of the lock can use it up. */
  predicate RoomFor(c: Config, rows: map<nat, Row>, r: Reservation) {
    && (r.organization.Some? && Rank(r.phase) >= 3 ==>
          |OrganizationPending(rows, r.organization.value)| < c.organizationCap)
    && (Rank(r.phase) >= 4 ==> |UserPending(rows, r.user, r.organization)| < c.userCap)
  }

  ghost predicate QuotaOk(c: Config, s: State) {
    && LocksOk(s) && CapsHold(c, s.rows)
    && (forall t :: t in s.open ==> RoomFor(c, s.rows, s.open[t]))
    && forall id :: id in s.rows ==> id < s.nextId
  }

  lemma QuotaShrinkStep(c: Config, s: State, s': State)
    requires QuotaOk(c, s) && LocksOk(s') && NoNewPending(s.rows, s'.rows)
    requires s'.open == s.open && s'.nextId == s.nextId && s'.rows.Keys <= s.rows.Keys
    ensures QuotaOk(c, s')
  {
    forall o: nat ensures |OrganizationPending(s'.rows, o)| <= |OrganizationPending(s.rows, o)| {
      CountsShrink(s.rows, s'.rows, o, 0, None);
    }
    forall u: nat, scope ensures |UserPending(s'.rows, u, scope)| <= |UserPending(s.rows, u, scope)| {
      CountsShrink(s.rows, s'.rows, 0, u, scope);
    }
  }

  /** A commit uses up room that only its own transaction had been granted. */
  lemma RoomSurvivesCommit(c: Config, s: State, t: nat, other: nat)
    requires QuotaOk(c, s) && t in s.open && s.open[t].phase.Inserted? && other in s.open && other != t
    ensures RoomFor(c, Advance(c, s, t).rows, s.open[other])
  {
    var r, q := s.open[t], s.open[other];
    var row := Row(r.user, r.organization, Pending, false);
    if q.organization.Some? { OrganizationGrows(s.rows, s.nextId, row, q.organization.value); }
    UserGrows(s.rows, s.nextId, row, q.user, q.organization);
    assert !Clash(r, q) && RoomFor(c, s.rows, q);
  }

  lemma QuotaCommitStep(c: Config, s: State, t: nat)
    requires QuotaOk(c, s) && CanStep(s, t) && s.open[t].phase.Inserted?
    ensures QuotaOk(c, Advance(c, s, t))
  {
    var r := s.open[t];
    var row := Row(r.user, r.organization, Pending, false);
    var s' := Advance(c, s, t);
    assert RoomFor(c, s.rows, r);
    forall o: nat ensures |OrganizationPending(s'.rows, o)| <= c.organizationCap {
      OrganizationGrows(s.rows, s.nextId, row, o);
    }
    forall u: nat, scope ensures |UserPending(s'.rows, u, scope)| <= c.userCap {
      UserGrows(s.rows, s.nextId, row, u, scope);
    }
    forall other | other in s'.open ensures RoomFor(c, s'.rows, s'.open[other]) {
      RoomSurvivesCommit(c, s, t, other);
    }
    assert Apply(c, s, Step(t)) == s';
    LocksStep(c, s, Step(t));
  }

  /** A statement that inserts nothing: its own reservation has room, the others are untouched. */
  lemma QuotaCheckStep(c: Config, s: State, t: nat)
    requires QuotaOk(c, s) && CanStep(s, t) && !s.open[t].phase.Inserted?
    ensures QuotaOk(c, Advance(c, s, t))
  {
    var s' := Advance(c, s, t);
    assert s'.rows == s.rows && s'.nextId == s.nextId;
    assert t in s'.open ==> RoomFor(c, s.rows, s'.open[t]) by { assert RoomFor(c, s.rows, s.open[t]); }
    forall other | other in s'.open ensures RoomFor(c, s'.rows, s'.open[other]) {
      assert other != t ==> s'.open[other] == s.open[other];
    }
    assert Apply(c, s, Step(t)) == s';
    LocksStep(c, s, Step(t));
  }

  lemma QuotaStep(c: Config, s: State, e: Event)
    requires QuotaOk(c, s)
    ensures QuotaOk(c, Apply(c, s, e))
  {
    LocksStep(c, s, e);
    match e
    case Begin(_, _, _) =>
    case Step(t) =>
      if CanStep(s, t) {
        if s.open[t].phase.Inserted? { QuotaCommitStep(c, s, t); } else { QuotaCheckStep(c, s, t); }
      }
    case Abort(_) =>
    case _ => QuotaShrinkStep(c, s, Apply(c, s, e));
  }

  // ----- Main theorems -----

  /** In every interleaving, no organization ever has more PENDING rows than its cap, and no user
      more than the user cap within one scope. */
  lemma {:induction false} QuotaNeverExceeded(c: Config, es: seq<Event>)
    ensures QuotaOk(c, Exec(c, es))
    ensures forall o: nat :: |OrganizationPending(Exec(c, es).rows, o)| <= c.organizationCap
    ensures forall u: nat, scope :: |UserPending(Exec(c, es).rows, u, scope)| <= c.userCap
  {
    if es == [] {
      forall o: nat ensures OrganizationPending(Exec(c, es).rows, o) == {} {}
      forall u: nat, scope ensures UserPending(Exec(c, es).rows, u, scope) == {} {}
    } else {
      QuotaNeverExceeded(c, es[..|es| - 1]);
      QuotaStep(c, Exec(c, es[..|es| - 1]), es[|es| - 1]);
    }
  }

  /** Which lock a reservation needs next, in the global order; 2 once it needs none. */
  function Need(s: State, t: nat): nat {
    if t !in s.open || Rank(s.open[t].phase) >= 2 then 2
    else if WaitsForOrganization(s.open[t]) then 0
    else 1
  }

  lemma WaitingClimbs(s: State, t: nat, holder: nat)
    requires LocksOk(s) && WaitsFor(s, t, holder)
    ensures holder in s.open && Need(s, t) < Need(s, holder)
  {
  }

  predicate WaitChain(s: State, chain: seq<nat>) {
    forall i :: 0 <= i < |chain| - 1 ==> WaitsFor(s, chain[i], chain[i + 1])
  }

  lemma {:induction false} ChainClimbs(s: State, chain: seq<nat>, i: nat, j: nat)
    requires LocksOk(s) && WaitChain(s, chain) && i < j < |chain|
    ensures Need(s, chain[i]) + (j - i) <= Need(s, chain[j])
    decreases j
  {
    WaitingClimbs(s, chain[j - 1], chain[j]);
    if i < j - 1 { ChainClimbs(s, chain, i, j - 1); }
  }

  /** Waiting never closes a cycle; chains of waiting transactions have at most three members. */
  lemma WaitsForIsAcyclic(c: Config, es: seq<Event>, chain: seq<nat>)
    requires WaitChain(Exec(c, es), chain)
    ensures |chain| <= 3
    ensures forall i, j :: 0 <= i < j < |chain| ==> chain[i] != chain[j]
  {
    var s := Exec(c, es);
    LocksAlwaysOk(c, es);
    forall i, j | 0 <= i < j < |chain| ensures chain[i] != chain[j] { ChainClimbs(s, chain, i, j); }
    if |chain| > 3 { ChainClimbs(s, chain, 0, 3); }
  }

  /** Whenever a reservation is open, some reservation can execute its next statement. */
  lemma SomeReservationCanStep(c: Config, es: seq<Event>, t: nat) returns (runnable: nat)
    requires t in Exec(c, es).open
    ensures CanStep(Exec(c, es), runnable)
    ensures runnable == t || exists chain ::
      WaitChain(Exec(c, es), chain) && |chain| >= 2 && chain[0] == t && chain[|chain| - 1] == runnable
  {
    var s := Exec(c, es);
    LocksAlwaysOk(c, es);
    runnable := t;
    var chain := [t];
    while !CanStep(s, runnable)
      invariant runnable in s.open && WaitChain(s, chain)
      invariant |chain| >= 1 && chain[0] == t && chain[|chain| - 1] == runnable
      invariant |chain| == 1 ==> runnable == t
      decreases 2 - Need(s, runnable)
    {
      var holder :| holder in s.open && WaitsFor(s, runnable, holder);
      WaitingClimbs(s, runnable, holder);
      chain := chain + [holder];
      runnable := holder;
    }
  }

  /** A statement moves its own reservation forward or ends it, and touches no other. */
  lemma StepMakesProgress(c: Config, s: State, t: nat)
    requires CanStep(s, t)
    ensures var s' := Apply(c, s, Step(t));
            && (t in s'.open ==> Rank(s.open[t].phase) < Rank(s'.open[t].phase))
            && s'.open - {t} == s.open - {t}
  {
  }

  // ----- What a reservation does -----

  /** The pending rows of the organization and of the user's scope are below their caps. */
  predicate HasRoom(c: Config, rows: map<nat, Row>, user: nat, organization: Option<nat>) {
    && (organization.Some? ==>
          |set id | id in rows && rows[id].status.Pending? && !rows[id].deleted
                    && rows[id].organization == organization|
          < c.organizationCap)
    && |set id | id in rows && rows[id].status.Pending? && !rows[id].deleted
                 && rows[id].user == user && rows[id].organization == organization|
       < c.userCap
  }

  /** The table after a reservation that is granted. */
  function Reserved(s: State, user: nat, organization: Option<nat>): State {
    s.(rows := s.rows[s.nextId := Row(user, organization, Pending, false)], nextId := s.nextId + 1)
  }

  lemma HasRoomByCounts(c: Config, rows: map<nat, Row>, user: nat, organization: Option<nat>)
    ensures HasRoom(c, rows, user, organization) <==>
            && (organization.Some? ==> |OrganizationPending(rows, organization.value)| < c.organizationCap)
            && |UserPending(rows, user, organization)| < c.userCap
  {
    assert UserPending(rows, user, organization) ==
           set id | id in rows && rows[id].status.Pending? && !rows[id].deleted
                    && rows[id].user == user && rows[id].organization == organization;
    if organization.Some? {
      assert OrganizationPending(rows, organization.value) ==
             set id | id in rows && rows[id].status.Pending? && !rows[id].deleted
                      && rows[id].organization == organization;
    }
  }

  /** In every interleaving a commit inserts, at a fresh id, exactly one PENDING row of its own user
      and organization, and at that moment there is room for it: it is the reservation run by itself. */
  lemma CommitIsReservation(c: Config, es: seq<Event>, t: nat)
    requires var s := Exec(c, es); t in s.open && s.open[t].phase.Inserted?
    ensures var s := Exec(c, es);
            && s.nextId !in s.rows && HasRoom(c, s.rows, s.open[t].user, s.open[t].organization)
            && Exec(c, es + [Step(t)]) ==
               Reserved(s, s.open[t].user, s.open[t].organization).(open := s.open - {t})
  {
    var s := Exec(c, es);
    QuotaNeverExceeded(c, es);
    assert RoomFor(c, s.rows, s.open[t]);
    HasRoomByCounts(c, s.rows, s.open[t].user, s.open[t].organization);
    assert (es + [Step(t)])[..|es|] == es;
    assert CanStep(s, t);
  }

  function WithTxn(s: State, t: nat, r: Reservation): State {
    s.(open := s.open[t := r])
  }

  /** No open reservation holds a lock that one for `user` and `organization` takes. */
  predicate Unlocked(s: State, user: nat, organization: Option<nat>) {
    forall other :: other in s.open ==>
      && !HoldsUser(s.open[other], user)
      && (organization.Some? ==> !HoldsOrganization(s.open[other], organization.value))
  }

  lemma UnlockedCanStep(s: State, t: nat, r: Reservation)
    requires Unlocked(s, r.user, r.organization)
    ensures CanStep(WithTxn(s, t, r), t)
  {
    var s' := WithTxn(s, t, r);
    forall other | other in s'.open ensures !WaitsFor(s', t, other) {
      if other != t { assert s'.open[other] == s.open[other]; }
    }
  }

  /** The next `n` statements of one reservation, in a row. */
  function Steps(c: Config, s: State, t: nat, n: nat): State
    decreases n
  {
    if n == 0 then s else Steps(c, Apply(c, s, Step(t)), t, n - 1)
  }

  lemma {:induction false} Ended(c: Config, s: State, t: nat, n: nat)
    requires t !in s.open
    ensures Steps(c, s, t, n) == s
    decreases n
  {
    if n > 0 { Ended(c, s, t, n - 1); }
  }

  lemma Continues(c: Config, s: State, t: nat, r: Reservation, n: nat)
    requires Unlocked(s, r.user, r.organization) && n > 0
    ensures CanStep(WithTxn(s, t, r), t)
    ensures Steps(c, WithTxn(s, t, r), t, n) == Steps(c, Advance(c, WithTxn(s, t, r), t), t, n - 1)
  {
    UnlockedCanStep(s, t, r);
  }

  /** The user's count, the insert and the commit. */
  lemma LastSteps(c: Config, s: State, t: nat, r: Reservation, n: nat)
    requires Unlocked(s, r.user, r.organization) && t !in s.open && n >= 3
    requires r.phase == (if r.organization.Some? then OrganizationChecked else UserLocked)
    ensures Steps(c, WithTxn(s, t, r), t, n) ==
            if |UserPending(s.rows, r.user, r.organization)| < c.userCap
            then Reserved(s, r.user, r.organization) else s
  {
    Continues(c, s, t, r, n);
    assert s.open[t := r] - {t} == s.open;
    if |UserPending(s.rows, r.user, r.organization)| >= c.userCap {
      Ended(c, s, t, n - 1);
    } else {
      var r4, r5 := r.(phase := UserChecked), r.(phase := Inserted);
      assert s.open[t := r][t := r4] == s.open[t := r4] && s.open[t := r4][t := r5] == s.open[t := r5];
      Continues(c, s, t, r4, n - 1);
      Continues(c, s, t, r5, n - 2);
      assert s.open[t := r5] - {t} == s.open;
      Ended(c, Reserved(s, r.user, r.organization), t, n - 3);
    }
  }

  /** The organization's count comes first. */
  lemma CheckSteps(c: Config, s: State, t: nat, r: Reservation, n: nat)
    requires Unlocked(s, r.user, r.organization) && t !in s.open && n >= 4 && r.phase.UserLocked?
    ensures Steps(c, WithTxn(s, t, r), t, n) ==
            if HasRoom(c, s.rows, r.user, r.organization) then Reserved(s, r.user, r.organization) else s
  {
    HasRoomByCounts(c, s.rows, r.user, r.organization);
    if r.organization.None? {
      LastSteps(c, s, t, r, n);
    } else {
      Continues(c, s, t, r, n);
      assert s.open[t := r] - {t} == s.open;
      if |OrganizationPending(s.rows, r.organization.value)| >= c.organizationCap {
        Ended(c, s, t, n - 1);
      } else {
        var r3 := r.(phase := OrganizationChecked);
        assert s.open[t := r][t := r3] == s.open[t := r3];
        LastSteps(c, s, t, r3, n - 1);
      }
    }
  }

  /** From every state in which its locks are free, a reservation left alone adds exactly its own
      PENDING row if the organization and the user's scope have room, and otherwise changes nothing. */
  lemma ReservationExactly(c: Config, s: State, t: nat, user: nat, organization: Option<nat>)
    requires t !in s.open && Unlocked(s, user, organization)
    ensures Steps(c, Apply(c, s, Begin(t, user, organization)), t, 6) ==
            if HasRoom(c, s.rows, user, organization) then Reserved(s, user, organization) else s
  {
    var r0 := Reservation(user, organization, Begun);
    Continues(c, s, t, r0, 6);
    var r2 := r0.(phase := UserLocked);
    if organization.None? {
      assert s.open[t := r0][t := r2] == s.open[t := r2];
      CheckSteps(c, s, t, r2, 5);
    } else {
      var r1 := r0.(phase := OrganizationLocked);
      assert s.open[t := r0][t := r1] == s.open[t := r1] && s.open[t := r1][t := r2] == s.open[t := r2];
      Continues(c, s, t, r1, 5);
      CheckSteps(c, s, t, r2, 4);
    }
  }

  /** A reservation that is rolled back leaves no row, and its locks are free. */
  lemma AbortedReservationLeavesNothing(c: Config, s: State, t: nat, user: nat, organization: Option<nat>)
    requires t in s.open && Unlocked(End(s, t), user, organization)
    ensures var s' := Apply(c, s, Abort(t));
            s'.rows == s.rows && s'.nextId == s.nextId && t !in s'.open && Unlocked(s', user, organization)
  {
  }

  predicate EndsPending(e: Event, id: nat) {
    (e.Settle? && e.id == id && !e.status.Pending?) || (e.SoftDelete? && e.id == id) || (e.HardDelete? && e.id == id)
  }

  /** A PENDING row that is confirmed, failed, deleted or removed gives its place back to its
      organization and to its user, and no other row does. */
  lemma EndedRowFreesItsPlace(c: Config, s: State, e: Event, id: nat, o: nat, u: nat, scope: Option<nat>)
    requires EndsPending(e, id)
    ensures OrganizationPending(Apply(c, s, e).rows, o) == OrganizationPending(s.rows, o) - {id}
    ensures UserPending(Apply(c, s, e).rows, u, scope) == UserPending(s.rows, u, scope) - {id}
  {
  }
}
