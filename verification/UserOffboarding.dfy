/**
 Deleting a user (`user.service.ts`, `user.repository.ts`): a sequence of separate transactions
 that marks the deletion as started, empties five kinds of data in a fixed order and finally sets
 `deleted_at`. Self-service deletes, admin deletes and the reconciler all run the same sequence;
 any number of them interleave step by step, and each may die between any two steps.
 */
module UserOffboarding {
  import opened Prelude

  /** The fan-out, in its order. */
  datatype Effect = RevokeSessions | RevokeMethods | InvalidateTokens | TombstoneUploads | DeleteExports

  /** The effect performed after `i` others. */
  function NthEffect(i: nat): Effect {
    if i == 0 then RevokeSessions
    else if i == 1 then RevokeMethods
    else if i == 2 then InvalidateTokens
    else if i == 3 then TombstoneUploads
    else DeleteExports
  }

  /** What the database holds for the user; `owned` counts the organizations the user owns. */
  datatype Db = Db(
    startedAt: Option<nat>,
    deletedAt: Option<nat>,
    sessions: set<nat>,
    methods: set<nat>,
    tokens: set<nat>,
    uploads: set<nat>,
    exports: set<nat>,
    owned: nat)

  /** Whether the offboarding services, and among them the ownership port, are wired. */
  datatype Config = Config(wired: bool, ownershipPort: bool)

  // ----- Statements -----

  function Perform(db: Db, k: Effect): Db {
    match k
    case RevokeSessions => db.(sessions := {})
    case RevokeMethods => db.(methods := {})
    case InvalidateTokens => db.(tokens := {})
    case TombstoneUploads => db.(uploads := {})
    case DeleteExports => db.(exports := {})
  }

  /** `markDeletionStarted`, guarded by `deleted_at IS NULL`. */
  function MarkStarted(db: Db, now: nat): Db {
    if db.deletedAt.None? then db.(startedAt := Some(now)) else db
  }

  predicate MayDelete(db: Db) {
    db.deletedAt.None? && db.startedAt.Some?
  }

  /** `softDelete`, guarded by both timestamps. */
  function SoftDelete(db: Db, now: nat): Db {
    if MayDelete(db) then db.(deletedAt := Some(now)) else db
  }

  predicate Refuses(c: Config, db: Db) {
    c.wired && c.ownershipPort && db.owned > 0
  }

  /** How many effects a run performs: without the services there is no fan-out. */
  function EffectCount(c: Config): nat {
    if c.wired then 5 else 0
  }

  /** Everything emptied and both timestamps set. */
  function Offboarded(c: Config, db: Db, now: nat): Db {
    Db(Some(now), Some(now),
       if c.wired then {} else db.sessions,
       if c.wired then {} else db.methods,
       if c.wired then {} else db.tokens,
       if c.wired then {} else db.uploads,
       if c.wired then {} else db.exports,
       db.owned)
  }

  datatype OffboardingError = NotFound | OwnsOrganizations

  /** One user, and the whole sequence run by itself. */
  class UserService {
    const config: Config
    var db: Db

    constructor (config: Config, db: Db)
      ensures this.config == config && this.db == db
    {
      this.config, this.db := config, db;
    }

    method SoftDeleteWithOffboarding(now: nat) returns (r: Result<(), OffboardingError>)
      modifies this
      ensures r == Err(NotFound) <==> old(db).deletedAt.Some?
      ensures r == Err(OwnsOrganizations) <==>
        old(db).deletedAt.None? && config.wired && config.ownershipPort && old(db).owned != 0
      ensures r.Ok? ==> db == Offboarded(config, old(db), now)
      ensures r.Ok? ==> db.startedAt == Some(now) && db.deletedAt == Some(now) && db.owned == old(db).owned
      ensures r.Ok? && config.wired ==>
        db.sessions == {} && db.methods == {} && db.tokens == {} && db.uploads == {} && db.exports == {}
      ensures r.Ok? && !config.wired ==> db == old(db).(startedAt := Some(now), deletedAt := Some(now))
      ensures r.Err? ==> db == old(db)
    {
      if db.deletedAt.Some? { return Err(NotFound); }
      if config.wired && config.ownershipPort && db.owned > 0 { return Err(OwnsOrganizations); }
      db := MarkStarted(db, now);
      if config.wired {
        db := db.(sessions := {});
        db := db.(methods := {});
        db := db.(tokens := {});
        db := db.(uploads := {});
        db := db.(exports := {});
      }
      if !(db.deletedAt.None? && db.startedAt.Some?) { return Err(NotFound); }
      db := db.(deletedAt := Some(now));
      return Ok(());
    }
  }

  // ----- Interleaved runs -----

  /** `Working(k)`: marked, with the first `k` effects performed. */
  datatype Phase = Loaded | Cleared | Rechecking | Working(done: nat)

  datatype Act = Marked | Did(effect: Effect) | Deleted

  /** `traces` holds, for every run ever started, what it did to the database, in order; `deleters`
      lists the runs whose soft-delete took effect. */
  datatype State = State(now: nat, db: Db, runs: map<nat, Phase>, traces: map<nat, seq<Act>>, deleters: seq<nat>)

  datatype Event =
    | Tick(elapsed: nat)
    | Activity(data: Db)
    | Begin(run: nat)
    | CheckOwnership(run: nat)
    | Mark(run: nat)
    | Recheck(run: nat)
    | RunEffect(run: nat)
    | Delete(run: nat)
    | Crash(run: nat)

  function Init(db: Db): State {
    State(0, db.(startedAt := None, deletedAt := None), map[], map[], [])
  }

  function To(s: State, r: nat, p: Phase): State {
    s.(runs := s.runs[r := p])
  }

  function Leave(s: State, r: nat): State {
    s.(runs := s.runs - {r})
  }

  /** What run `r` has done so far. */
  function Trace(s: State, r: nat): seq<Act> {
    if r in s.traces then s.traces[r] else []
  }

  function Note(s: State, r: nat, a: Act): map<nat, seq<Act>> {
    s.traces[r := Trace(s, r) + [a]]
  }

  function MarkStep(c: Config, s: State, r: nat): State {
    if r !in s.runs || !s.runs[r].Cleared? then s
    else if s.db.deletedAt.None? then
      To(s, r, Working(0)).(db := MarkStarted(s.db, s.now), traces := Note(s, r, Marked))
    else if c.wired then To(s, r, Rechecking)
    else Leave(s, r)
  }

  function EffectStep(c: Config, s: State, r: nat): State {
    if r !in s.runs || !s.runs[r].Working? || s.runs[r].done >= EffectCount(c) then s
    else
      var k := NthEffect(s.runs[r].done);
      To(s, r, Working(s.runs[r].done + 1)).(db := Perform(s.db, k), traces := Note(s, r, Did(k)))
  }

  function DeleteStep(c: Config, s: State, r: nat): State {
    if r !in s.runs || s.runs[r] != Working(EffectCount(c)) then s
    else if MayDelete(s.db) then
      Leave(s, r).(db := SoftDelete(s.db, s.now), traces := Note(s, r, Deleted), deleters := s.deleters + [r])
    else Leave(s, r)
  }

  function Apply(c: Config, s: State, e: Event): State {
    match e
    case Tick(d) => s.(now := s.now + d)
    case Activity(data) => s.(db := data.(startedAt := s.db.startedAt, deletedAt := s.db.deletedAt))
    case Begin(r) =>
      if r in s.traces || s.db.deletedAt.Some? then s else To(s, r, Loaded).(traces := s.traces[r := []])
    case CheckOwnership(r) =>
      if r !in s.runs || !s.runs[r].Loaded? then s
      else if Refuses(c, s.db) then Leave(s, r)
      else To(s, r, Cleared)
    case Mark(r) => MarkStep(c, s, r)
    case Recheck(r) =>
      if r !in s.runs || !s.runs[r].Rechecking? then s
      else if s.db.deletedAt.None? && s.db.startedAt.Some? then To(s, r, Working(0))
      else Leave(s, r)
    case RunEffect(r) => EffectStep(c, s, r)
    case Delete(r) => DeleteStep(c, s, r)
    case Crash(r) => Leave(s, r)
  }

  function Exec(c: Config, db: Db, es: seq<Event>): State {
    if es == [] then Init(db) else Apply(c, Exec(c, db, es[..|es| - 1]), es[|es| - 1])
  }

  lemma ExecSnoc(c: Config, db: Db, es: seq<Event>, e: Event)
    ensures Exec(c, db, es + [e]) == Apply(c, Exec(c, db, es), e)
  {
    assert (es + [e])[..|es|] == es;
  }

  // ----- The script -----

  /** What a run does when it is neither refused nor interrupted: mark, the fan-out in order, delete. */
  function Script(c: Config, i: nat): Act {
    if i == 0 then Marked else if i <= EffectCount(c) then Did(NthEffect(i - 1)) else Deleted
  }

  function ScriptLength(c: Config): nat {
    EffectCount(c) + 2
  }

  predicate Follows(c: Config, trace: seq<Act>) {
    |trace| <= ScriptLength(c) && forall i :: 0 <= i < |trace| ==> trace[i] == Script(c, i)
  }

  predicate PhaseOk(c: Config, s: State, p: Phase, trace: seq<Act>) {
    match p
    case Loaded => trace == []
    case Cleared => trace == []
    case Rechecking => trace == [] && s.db.deletedAt.Some?
    case Working(k) => k <= EffectCount(c) && |trace| == k + 1 && s.db.startedAt.Some?
  }

  predicate OnScript(c: Config, s: State, r: nat) {
    && Follows(c, Trace(s, r))
    && (r in s.runs ==> r in s.traces && PhaseOk(c, s, s.runs[r], Trace(s, r)))
    && (|Trace(s, r)| == ScriptLength(c) ==> s.db.deletedAt.Some?)
  }

  /** A run that does not move stays on script: timestamps are only ever set. */
  lemma OnScriptSame(c: Config, s: State, s': State, r: nat)
    requires OnScript(c, s, r) && (r in s.traces ==> r in s'.traces) && Trace(s', r) == Trace(s, r)
    requires r in s'.runs ==> r in s.runs && s'.runs[r] == s.runs[r]
    requires s.db.startedAt.Some? ==> s'.db.startedAt.Some?
    requires s.db.deletedAt.Some? ==> s'.db.deletedAt.Some?
    ensures OnScript(c, s', r)
  {
  }

  lemma OthersKeep(c: Config, s: State, e: Event, r: nat)
    requires OnScript(c, s, r) && (e.Tick? || e.Activity? || e.run != r)
    ensures OnScript(c, Apply(c, s, e), r)
  {
    OnScriptSame(c, s, Apply(c, s, e), r);
  }

  lemma FollowsSnoc(c: Config, trace: seq<Act>, a: Act)
    requires Follows(c, trace) && |trace| < ScriptLength(c) && a == Script(c, |trace|)
    ensures Follows(c, trace + [a])
  {
  }

  lemma OnScriptMark(c: Config, s: State, r: nat)
    requires OnScript(c, s, r)
    ensures OnScript(c, MarkStep(c, s, r), r)
  {
    if r in s.runs && s.runs[r].Cleared? { FollowsSnoc(c, Trace(s, r), Marked); }
  }

  lemma OnScriptEffect(c: Config, s: State, r: nat)
    requires OnScript(c, s, r)
    ensures OnScript(c, EffectStep(c, s, r), r)
  {
    if r in s.runs && s.runs[r].Working? && s.runs[r].done < EffectCount(c) {
      var k := NthEffect(s.runs[r].done);
      FollowsSnoc(c, Trace(s, r), Did(k));
      assert Perform(s.db, k).startedAt == s.db.startedAt;
    }
  }

  lemma OnScriptDelete(c: Config, s: State, r: nat)
    requires OnScript(c, s, r)
    ensures OnScript(c, DeleteStep(c, s, r), r)
  {
    if r in s.runs && s.runs[r] == Working(EffectCount(c)) { FollowsSnoc(c, Trace(s, r), Deleted); }
  }

  lemma OnScriptStep(c: Config, s: State, e: Event, r: nat)
    requires OnScript(c, s, r)
    ensures OnScript(c, Apply(c, s, e), r)
  {
    if e.Tick? || e.Activity? || e.run != r { OthersKeep(c, s, e, r); }
    else if e.Mark? { OnScriptMark(c, s, r); }
    else if e.RunEffect? { OnScriptEffect(c, s, r); }
    else if e.Delete? { OnScriptDelete(c, s, r); }
  }

  lemma {:induction false} AlwaysOnScript(c: Config, db: Db, es: seq<Event>, r: nat)
    ensures OnScript(c, Exec(c, db, es), r)
  {
    if es != [] {
      AlwaysOnScript(c, db, es[..|es| - 1], r);
      OnScriptStep(c, Exec(c, db, es[..|es| - 1]), es[|es| - 1], r);
    }
  }

  /** The database's deletion has one author, and follows the marking. */
  predicate DeletedOnce(s: State) {
    && |s.deleters| == (if s.db.deletedAt.Some? then 1 else 0)
    && (forall i :: 0 <= i < |s.deleters| ==> Deleted in Trace(s, s.deleters[i]))
    && (s.db.startedAt.Some? ==> s.db.startedAt.value <= s.now)
    && (s.db.deletedAt.Some? ==> s.db.startedAt.Some? && s.db.startedAt.value <= s.db.deletedAt.value <= s.now)
  }

  lemma DeletedOnceStep(c: Config, s: State, e: Event)
    requires DeletedOnce(s)
    ensures DeletedOnce(Apply(c, s, e))
    ensures s.db.deletedAt.Some? ==>
      Apply(c, s, e).db.deletedAt == s.db.deletedAt && Apply(c, s, e).db.startedAt == s.db.startedAt
  {
  }

  lemma {:induction false} AlwaysDeletedOnce(c: Config, db: Db, es: seq<Event>)
    ensures DeletedOnce(Exec(c, db, es))
  {
    if es != [] {
      AlwaysDeletedOnce(c, db, es[..|es| - 1]);
      DeletedOnceStep(c, Exec(c, db, es[..|es| - 1]), es[|es| - 1]);
    }
  }

  // ----- Main theorems -----

  /** In every interleaving every run does a prefix of the script, the branch that would let an
      already deleted user through is never taken, and a deletion means that one run marked the
      user, performed the five effects in order and then deleted, once. */
  lemma EveryRunFollowsScript(c: Config, db: Db, es: seq<Event>, r: nat)
    ensures var s := Exec(c, db, es);
            && Follows(c, Trace(s, r))
            && |s.deleters| == (if s.db.deletedAt.Some? then 1 else 0)
            && (Deleted in Trace(s, r) ==> |Trace(s, r)| == ScriptLength(c))
            && (r in s.runs && s.runs[r].Rechecking? ==> r !in Apply(c, s, Recheck(r)).runs)
            && (s.db.deletedAt.Some? ==> s.db.startedAt.Some? && s.db.startedAt.value <= s.db.deletedAt.value)
  {
    AlwaysOnScript(c, db, es, r);
    AlwaysDeletedOnce(c, db, es);
  }

  /** A deleted user has a run that did the whole script. */
  lemma DeletedByWholeScript(c: Config, db: Db, es: seq<Event>) returns (r: nat)
    requires Exec(c, db, es).db.deletedAt.Some?
    ensures |Trace(Exec(c, db, es), r)| == ScriptLength(c) && Follows(c, Trace(Exec(c, db, es), r))
  {
    AlwaysDeletedOnce(c, db, es);
    r := Exec(c, db, es).deleters[0];
    EveryRunFollowsScript(c, db, es, r);
  }

  /** Once set, `deleted_at` and `deletion_started_at` never change again. */
  lemma {:induction false} DeletedForever(c: Config, db: Db, es: seq<Event>, more: seq<Event>)
    requires Exec(c, db, es).db.deletedAt.Some?
    ensures Exec(c, db, es + more).db.deletedAt == Exec(c, db, es).db.deletedAt
    ensures Exec(c, db, es + more).db.startedAt == Exec(c, db, es).db.startedAt
    decreases |more|
  {
    if more == [] {
      assert es + more == es;
    } else {
      var most, e := more[..|more| - 1], more[|more| - 1];
      DeletedForever(c, db, es, most);
      assert es + more == es + most + [e];
      ExecSnoc(c, db, es + most, e);
      AlwaysDeletedOnce(c, db, es + most);
      DeletedOnceStep(c, Exec(c, db, es + most), e);
    }
  }

  /** No run starts for a deleted user. */
  lemma DeletedUserIsNotFound(c: Config, db: Db, es: seq<Event>, r: nat)
    requires Exec(c, db, es).db.deletedAt.Some?
    ensures Exec(c, db, es + [Begin(r)]) == Exec(c, db, es)
  {
    ExecSnoc(c, db, es, Begin(r));
  }

  lemma GoneStep(c: Config, s: State, e: Event, r: nat)
    requires r in s.traces && r !in s.runs
    ensures r in Apply(c, s, e).traces && r !in Apply(c, s, e).runs && Trace(Apply(c, s, e), r) == Trace(s, r)
  {
  }

  /** A run whose check finds an owned organization has changed nothing and never will. */
  lemma {:induction false} RefusedLeavesNoTrace(c: Config, db: Db, es: seq<Event>, r: nat, more: seq<Event>)
    requires r in Exec(c, db, es).runs && Exec(c, db, es).runs[r].Loaded?
    requires c.wired && c.ownershipPort && Exec(c, db, es).db.owned != 0
    ensures Exec(c, db, es + [CheckOwnership(r)]).db == Exec(c, db, es).db
    ensures var s := Exec(c, db, es + [CheckOwnership(r)] + more);
            r in s.traces && r !in s.runs && Trace(s, r) == []
    decreases |more|
  {
    var refused := es + [CheckOwnership(r)];
    ExecSnoc(c, db, es, CheckOwnership(r));
    AlwaysOnScript(c, db, es, r);
    if more == [] {
      assert refused + more == refused;
    } else {
      var most, e := more[..|more| - 1], more[|more| - 1];
      RefusedLeavesNoTrace(c, db, es, r, most);
      assert refused + more == refused + most + [e];
      ExecSnoc(c, db, refused + most, e);
      GoneStep(c, Exec(c, db, refused + most), e, r);
    }
  }

  /** In every interleaving each statement that finds its guard true does exactly its own part: the
      marking and the deletion write the present time, an effect empties its kind of data. */
  lemma StatementsTakeEffect(c: Config, db: Db, es: seq<Event>, r: nat)
    requires r in Exec(c, db, es).runs
    ensures var s := Exec(c, db, es);
            && (s.runs[r].Cleared? && s.db.deletedAt.None? ==>
                  Exec(c, db, es + [Mark(r)]).db == s.db.(startedAt := Some(s.now)))
            && (s.runs[r] == Working(if c.wired then 5 else 0) && s.db.deletedAt.None? ==>
                  Exec(c, db, es + [Delete(r)]).db == s.db.(deletedAt := Some(s.now)))
            && (c.wired && s.runs[r].Working? && s.runs[r].done < 5 ==>
                  Exec(c, db, es + [RunEffect(r)]).db == Emptied(s.db, s.runs[r].done))
  {
    AlwaysOnScript(c, db, es, r);
    ExecSnoc(c, db, es, Mark(r));
    ExecSnoc(c, db, es, Delete(r));
    ExecSnoc(c, db, es, RunEffect(r));
  }

  /** One kind of data emptied, by its place in the order: sessions, methods, tokens, uploads, exports. */
  function Emptied(db: Db, k: nat): Db {
    db.(sessions := if k == 0 then {} else db.sessions,
        methods := if k == 1 then {} else db.methods,
        tokens := if k == 2 then {} else db.tokens,
        uploads := if k == 3 then {} else db.uploads,
        exports := if k == 4 then {} else db.exports)
  }

  // ----- What the effects leave -----

  /** The first `k` kinds of data, in the order of the fan-out, are empty. */
  predicate FirstEmpty(db: Db, k: int) {
    && (k >= 1 ==> db.sessions == {})
    && (k >= 2 ==> db.methods == {})
    && (k >= 3 ==> db.tokens == {})
    && (k >= 4 ==> db.uploads == {})
    && (k >= 5 ==> db.exports == {})
  }

  /** Nothing but offboarding runs and the clock moves. */
  predicate NoActivity(more: seq<Event>) {
    forall i :: 0 <= i < |more| ==> !more[i].Activity?
  }

  lemma FirstEmptyEffect(c: Config, s: State, q: nat, r: nat)
    requires c.wired && OnScript(c, s, r) && FirstEmpty(s.db, |Trace(s, r)| - 1)
    ensures var s' := EffectStep(c, s, q); FirstEmpty(s'.db, |Trace(s', r)| - 1)
  {
  }

  lemma FirstEmptyStep(c: Config, s: State, e: Event, r: nat)
    requires c.wired && OnScript(c, s, r) && FirstEmpty(s.db, |Trace(s, r)| - 1) && !e.Activity?
    ensures var s' := Apply(c, s, e); FirstEmpty(s'.db, |Trace(s', r)| - 1)
  {
    if e.RunEffect? { FirstEmptyEffect(c, s, e.run, r); }
  }

  lemma FirstEmptySnoc(c: Config, db: Db, es: seq<Event>, e: Event, r: nat)
    requires c.wired && !e.Activity?
    requires var s := Exec(c, db, es); FirstEmpty(s.db, |Trace(s, r)| - 1)
    ensures var s := Exec(c, db, es + [e]); FirstEmpty(s.db, |Trace(s, r)| - 1)
  {
    AlwaysOnScript(c, db, es, r);
    FirstEmptyStep(c, Exec(c, db, es), e, r);
    ExecSnoc(c, db, es, e);
  }

  /** Whatever other runs, crashes and ticks interleave, once a run begun in `more` has performed its
      first `k` effects, the first `k` kinds of data are empty and stay so. */
  lemma {:induction false} EffectsLast(c: Config, db: Db, es: seq<Event>, more: seq<Event>, r: nat)
    requires c.wired && NoActivity(more) && r !in Exec(c, db, es).traces
    ensures var s := Exec(c, db, es + more); FirstEmpty(s.db, |Trace(s, r)| - 1)
    decreases |more|
  {
    if more == [] {
      assert es + more == es;
    } else {
      var most, e := more[..|more| - 1], more[|more| - 1];
      EffectsLast(c, db, es, most, r);
      FirstEmptySnoc(c, db, es + most, e, r);
      assert es + more == es + most + [e];
    }
  }

  /** Offboarding never changes who owns organizations, and without the services it keeps all data. */
  predicate SameRest(c: Config, a: Db, b: Db) {
    a.owned == b.owned && (!c.wired ==> SameButForTime(a, b))
  }

  predicate SameButForTime(a: Db, b: Db) {
    a.(startedAt := b.startedAt, deletedAt := b.deletedAt) == b
  }

  lemma {:induction false} RestStays(c: Config, db: Db, es: seq<Event>, more: seq<Event>)
    requires NoActivity(more)
    ensures SameRest(c, Exec(c, db, es).db, Exec(c, db, es + more).db)
    decreases |more|
  {
    if more == [] {
      assert es + more == es;
    } else {
      var most, e := more[..|more| - 1], more[|more| - 1];
      RestStays(c, db, es, most);
      assert es + more == es + most + [e];
      ExecSnoc(c, db, es + most, e);
    }
  }

  /** A run begun in `more` deletes the user there. */
  ghost predicate DeletedBy(c: Config, db: Db, es: seq<Event>, more: seq<Event>, r: nat) {
    && NoActivity(more) && r !in Exec(c, db, es).traces
    && r in Exec(c, db, es + more).deleters
  }

  /** A deletion by a run begun in `more`, under any interleaving, leaves exactly what one
      uninterrupted run leaves: no data, and the owned organizations as they were. */
  lemma DeletionLeavesNoData(c: Config, db: Db, es: seq<Event>, more: seq<Event>, r: nat)
    requires DeletedBy(c, db, es, more, r)
    ensures SameButForTime(Exec(c, db, es + more).db, Offboarded(c, Exec(c, db, es).db, 0))
    ensures c.wired ==> FirstEmpty(Exec(c, db, es + more).db, 5)
  {
    var s := Exec(c, db, es + more);
    AlwaysDeletedOnce(c, db, es + more);
    assert Deleted in Trace(s, r);
    EveryRunFollowsScript(c, db, es + more, r);
    RestStays(c, db, es, more);
    if c.wired { EffectsLast(c, db, es, more, r); }
  }

  /** Resuming after any crashes, under any interleaving of runs, leaves the same data as a history
      without crashes. */
  lemma ResumeConverges(
    c: Config, db: Db, crashed: seq<Event>, resumed: seq<Event>, r: nat,
    smooth: seq<Event>, straight: seq<Event>, q: nat)
    requires c.wired && DeletedBy(c, db, crashed, resumed, r) && DeletedBy(c, db, smooth, straight, q)
    requires Exec(c, db, crashed).db.owned == Exec(c, db, smooth).db.owned
    ensures SameButForTime(Exec(c, db, crashed + resumed).db, Exec(c, db, smooth + straight).db)
  {
    DeletionLeavesNoData(c, db, crashed, resumed, r);
    DeletionLeavesNoData(c, db, smooth, straight, q);
  }

  // ----- Resuming -----

  predicate Of(e: Event, r: nat) {
    !e.Tick? && !e.Activity? && e.run == r
  }

  /** The steps that run `r` takes in `more`, in order. */
  function Own(more: seq<Event>, r: nat): seq<Event> {
    if more == [] then []
    else
      var last := more[|more| - 1];
      Own(more[..|more| - 1], r) + if Of(last, r) then [last] else []
  }

  /** The `i`-th step of a run that does not crash. */
  function ScriptStep(c: Config, r: nat, i: nat): Event {
    if i == 0 then Begin(r)
    else if i == 1 then CheckOwnership(r)
    else if i == 2 then Mark(r)
    else if i < 3 + EffectCount(c) then RunEffect(r)
    else Delete(r)
  }

  function StepCount(c: Config): nat {
    EffectCount(c) + 4
  }

  /** Run `r` takes the first steps of the script in `more`, among whatever others do. */
  predicate TakesSteps(c: Config, more: seq<Event>, r: nat) {
    |Own(more, r)| <= StepCount(c) && forall i :: 0 <= i < |Own(more, r)| ==> Own(more, r)[i] == ScriptStep(c, r, i)
  }

  function PhaseAfter(j: nat): Phase
    requires j >= 1
  {
    if j == 1 then Loaded else if j == 2 then Cleared else Working(j - 3)
  }

  /** After `j` of its steps the run stands where the script puts it, unless the user is deleted. */
  predicate InStep(c: Config, s: State, r: nat, j: nat) {
    s.db.deletedAt.None? ==>
      && j < StepCount(c)
      && (j == 0 ==> r !in s.runs && r !in s.traces)
      && (j >= 1 ==> r in s.runs && s.runs[r] == PhaseAfter(j))
  }

  lemma InStepOther(c: Config, s: State, e: Event, r: nat, j: nat)
    requires InStep(c, s, r, j) && DeletedOnce(s) && !Of(e, r)
    ensures InStep(c, Apply(c, s, e), r, j)
  {
    DeletedOnceStep(c, s, e);
  }

  lemma InStepOwn(c: Config, s: State, r: nat, j: nat)
    requires InStep(c, s, r, j) && DeletedOnce(s) && OnScript(c, s, r) && !Refuses(c, s.db) && j < StepCount(c)
    ensures InStep(c, Apply(c, s, ScriptStep(c, r, j)), r, j + 1)
  {
    DeletedOnceStep(c, s, ScriptStep(c, r, j));
  }

  lemma {:induction false} RunStaysInStep(c: Config, db: Db, es: seq<Event>, more: seq<Event>, r: nat)
    requires NoActivity(more) && TakesSteps(c, more, r) && r !in Exec(c, db, es).traces
    requires !Refuses(c, Exec(c, db, es).db)
    ensures InStep(c, Exec(c, db, es + more), r, |Own(more, r)|)
    decreases |more|
  {
    if more == [] {
      assert es + more == es;
      AlwaysOnScript(c, db, es, r);
    } else {
      var most, e := more[..|more| - 1], more[|more| - 1];
      assert forall i :: 0 <= i < |Own(most, r)| ==> Own(more, r)[i] == Own(most, r)[i];
      RunStaysInStep(c, db, es, most, r);
      RestStays(c, db, es, most);
      AlwaysDeletedOnce(c, db, es + most);
      AlwaysOnScript(c, db, es + most, r);
      if Of(e, r) {
        assert e == Own(more, r)[|Own(most, r)|];
        InStepOwn(c, Exec(c, db, es + most), r, |Own(most, r)|);
      } else {
        InStepOther(c, Exec(c, db, es + most), e, r, |Own(most, r)|);
      }
      assert es + more == es + most + [e];
      ExecSnoc(c, db, es + most, e);
    }
  }

  /** A run that is not refused and takes all its steps in `more`, however others interleave, crash or
      overtake it, leaves the user deleted. */
  lemma WholeRunDeletes(c: Config, db: Db, es: seq<Event>, more: seq<Event>, r: nat)
    requires NoActivity(more) && r !in Exec(c, db, es).traces
    requires !c.wired || !c.ownershipPort || Exec(c, db, es).db.owned == 0
    requires TakesSteps(c, more, r) && |Own(more, r)| == StepCount(c)
    ensures Exec(c, db, es + more).db.deletedAt.Some?
  {
    RunStaysInStep(c, db, es, more, r);
  }

  /** The runs that are live in `s` take no further step: they are stalled or crashed. */
  predicate Apart(s: State, more: seq<Event>) {
    forall i :: 0 <= i < |more| && !more[i].Tick? && !more[i].Activity? ==> more[i].run !in s.runs
  }

  /** An old run leaves no further trace. */
  predicate OldSame(s0: State, s: State, q: nat) {
    q in s0.traces ==> q in s.traces && Trace(s, q) == Trace(s0, q) && (q in s.runs ==> q in s0.runs)
  }

  lemma OldSameStep(c: Config, s0: State, s: State, e: Event, q: nat)
    requires OldSame(s0, s, q) && (!e.Tick? && !e.Activity? ==> e.run !in s0.runs)
    ensures OldSame(s0, Apply(c, s, e), q)
  {
  }

  lemma {:induction false} OldRunsStay(c: Config, db: Db, es: seq<Event>, more: seq<Event>, q: nat)
    requires Apart(Exec(c, db, es), more)
    ensures OldSame(Exec(c, db, es), Exec(c, db, es + more), q)
    decreases |more|
  {
    if more == [] {
      assert es + more == es;
    } else {
      var most, e := more[..|more| - 1], more[|more| - 1];
      OldRunsStay(c, db, es, most, q);
      OldSameStep(c, Exec(c, db, es), Exec(c, db, es + most), e, q);
      assert es + more == es + most + [e];
      ExecSnoc(c, db, es + most, e);
    }
  }

  /** While the user owns organizations, new runs get no further than their check. */
  predicate AllRefused(c: Config, s0: State, s: State) {
    s.db == s0.db && forall q :: q in s.runs ==> q in s0.runs || s.runs[q].Loaded?
  }

  lemma {:induction false} RefusedChangesNothing(c: Config, db: Db, es: seq<Event>, more: seq<Event>)
    requires NoActivity(more) && Apart(Exec(c, db, es), more)
    requires c.wired && c.ownershipPort && Exec(c, db, es).db.owned != 0
    ensures AllRefused(c, Exec(c, db, es), Exec(c, db, es + more))
    decreases |more|
  {
    if more == [] {
      assert es + more == es;
    } else {
      var most, e := more[..|more| - 1], more[|more| - 1];
      RefusedChangesNothing(c, db, es, most);
      assert es + more == es + most + [e];
      ExecSnoc(c, db, es + most, e);
    }
  }

  /** The user is deleted in `more` only by a run begun there. */
  lemma DeleterIsNew(c: Config, db: Db, es: seq<Event>, more: seq<Event>) returns (q: nat)
    requires NoActivity(more) && Apart(Exec(c, db, es), more)
    requires Exec(c, db, es).db.deletedAt.None? && Exec(c, db, es + more).db.deletedAt.Some?
    ensures DeletedBy(c, db, es, more, q)
  {
    AlwaysDeletedOnce(c, db, es + more);
    q := Exec(c, db, es + more).deleters[0];
    AlwaysOnScript(c, db, es, q);
    EveryRunFollowsScript(c, db, es + more, q);
    OldRunsStay(c, db, es, more, q);
  }

  /** Wherever earlier runs crashed or stalled, and however new runs interleave, crash and overtake one
      another, once one of the new ones has taken all its steps the user is deleted exactly when the
      user owned no organization (or nobody asks); then the data is what one uninterrupted run
      leaves, and otherwise nothing has changed. */
  lemma ResumeCompletesExactlyWhenNotRefused(c: Config, db: Db, es: seq<Event>, more: seq<Event>, r: nat)
    requires NoActivity(more) && Apart(Exec(c, db, es), more) && Exec(c, db, es).db.deletedAt.None?
    requires r !in Exec(c, db, es).traces && TakesSteps(c, more, r) && |Own(more, r)| == StepCount(c)
    ensures var s, s' := Exec(c, db, es), Exec(c, db, es + more);
            && (s'.db.deletedAt.None? <==> c.wired && c.ownershipPort && s.db.owned != 0)
            && (s'.db.deletedAt.None? ==> s'.db == s.db)
            && (s'.db.deletedAt.Some? ==> SameButForTime(s'.db, Offboarded(c, s.db, 0)))
            && (s'.db.deletedAt.Some? && c.wired ==> FirstEmpty(s'.db, 5))
  {
    if Refuses(c, Exec(c, db, es).db) {
      RefusedChangesNothing(c, db, es, more);
    } else {
      WholeRunDeletes(c, db, es, more, r);
      var q := DeleterIsNew(c, db, es, more);
      DeletionLeavesNoData(c, db, es, more, q);
    }
  }

  // ----- A run by itself -----

  /** The first `j` steps of run `r`, in a row. */
  function Straight(c: Config, s: State, r: nat, j: nat): State {
    if j == 0 then s else Apply(c, Straight(c, s, r, j - 1), ScriptStep(c, r, j - 1))
  }

  /** The data after the marking and the first `k` effects. */
  function Partly(db: Db, now: nat, k: nat): Db {
    db.(startedAt := Some(now),
        sessions := if k >= 1 then {} else db.sessions,
        methods := if k >= 2 then {} else db.methods,
        tokens := if k >= 3 then {} else db.tokens,
        uploads := if k >= 4 then {} else db.uploads,
        exports := if k >= 5 then {} else db.exports)
  }

  predicate Ready(s: State, r: nat) {
    r !in s.runs && r !in s.traces && s.db.deletedAt.None?
  }

  lemma StraightStarts(c: Config, s: State, r: nat)
    requires Ready(s, r)
    ensures var refused := c.wired && c.ownershipPort && s.db.owned != 0;
            var s2 := Straight(c, s, r, 2);
            && s2.db == s.db && s2.now == s.now && (refused ==> r !in s2.runs)
            && (!refused ==> r in s2.runs && s2.runs[r].Cleared?)
  {
    var s1 := Straight(c, s, r, 1);
    assert s1 == Apply(c, Straight(c, s, r, 0), Begin(r));
    assert Straight(c, s, r, 2) == Apply(c, s1, CheckOwnership(r));
  }

  lemma {:induction false} StraightWorks(c: Config, s: State, r: nat, k: nat)
    requires Ready(s, r) && !(c.wired && c.ownershipPort && s.db.owned != 0) && k <= EffectCount(c)
    ensures var s' := Straight(c, s, r, k + 3);
            r in s'.runs && s'.runs[r] == Working(k) && s'.db == Partly(s.db, s.now, k) && s'.now == s.now
  {
    if k == 0 {
      StraightStarts(c, s, r);
      assert Straight(c, s, r, 3) == Apply(c, Straight(c, s, r, 2), Mark(r));
    } else {
      var j: nat := k - 1;
      StraightWorks(c, s, r, j);
      assert Straight(c, s, r, k + 3) == Apply(c, Straight(c, s, r, k + 2), RunEffect(r));
    }
  }

  lemma {:induction false} RefusedStands(c: Config, s: State, r: nat, j: nat)
    requires Ready(s, r) && c.wired && c.ownershipPort && s.db.owned != 0 && 2 <= j <= StepCount(c)
    ensures Straight(c, s, r, j).db == s.db && r !in Straight(c, s, r, j).runs
  {
    if j == 2 {
      StraightStarts(c, s, r);
    } else {
      var i: nat := j - 1;
      RefusedStands(c, s, r, i);
    }
  }

  /** From every state in which the user is not deleted, a run left alone leaves what the service's
      own method promises, at the time it ran: the interleaved model refines it. */
  lemma StraightRunExactly(c: Config, s: State, r: nat)
    requires Ready(s, r)
    ensures Straight(c, s, r, StepCount(c)).db ==
            if c.wired && c.ownershipPort && s.db.owned != 0 then s.db else Offboarded(c, s.db, s.now)
  {
    if c.wired && c.ownershipPort && s.db.owned != 0 {
      RefusedStands(c, s, r, StepCount(c));
    } else {
      StraightWorks(c, s, r, EffectCount(c));
      assert Straight(c, s, r, StepCount(c)) == Apply(c, Straight(c, s, r, EffectCount(c) + 3), Delete(r));
    }
  }
}
