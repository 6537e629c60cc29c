/**
 One request's durable task list under any interleaving of appends, flushes, recovery sweeps,
 purges, clock ticks and crashes. A step is one Redis command (or `MULTI`) or one task execution.
 Requests share no list, so one request's list is the whole story.
 */
module DispatchProtocol {
  import opened Prelude
  import opened CommitDispatch

  /** What a deployment promises about appends: each follows the previous one of its request within
      `maxGap`, and (unless `lateAppends`) none follows the start of a flush. */
  datatype Config = Config(maxGap: nat, lateAppends: bool)

  /** A flush or a sweep. `Acking` has executed its task and is about to `LREM` it; `Counting` is
      about to `LLEN`; `Dropping` saw an empty list and is about to `DEL`; `Unindexing` read an empty
      list and is about to `ZREM`. */
  datatype Consumer =
    | Reading
    | Unindexing
    | Working(todo: seq<Task>)
    | Acking(task: Task, todo: seq<Task>)
    | Counting(todo: seq<Task>)
    | Dropping(todo: seq<Task>)

  datatype Outcome = Open | Committed | RolledBack

  /** `appended`, `removed` (by `LREM`), `dropped` (by `DEL`) and `succeeded` record what happened. */
  datatype State = State(
    now: nat,
    durable: Durable,
    consumers: map<nat, Consumer>,
    marked: bool,
    outcome: Outcome,
    flushed: bool,
    lastAppend: Option<nat>,
    appended: multiset<Task>,
    removed: multiset<Task>,
    dropped: multiset<Task>,
    succeeded: multiset<Task>)

  datatype Event =
    | Tick(elapsed: nat)
    | Schedule(task: Task, threw: bool)
    | End(commit: bool)
    | Flush(consumer: nat)
    | ClearMarker
    | Purge
    | Sweep(consumer: nat)
    | Range(consumer: nat)
    | Unindex(consumer: nat)
    | Execute(consumer: nat, ok: bool)
    | Remove(consumer: nat, threw: bool)
    | Count(consumer: nat)
    | Drop(consumer: nat)
    | Throw(consumer: nat)
    | Crash(consumer: nat)

  function Init(): State {
    State(0, Dropped(), map[], false, Open, false, None, multiset{}, multiset{}, multiset{}, multiset{})
  }

  predicate MayAppend(c: Config, s: State) {
    (s.lastAppend.Some? ==> s.now <= s.lastAppend.value + c.maxGap) && (s.flushed ==> c.lateAppends)
  }

  /** The request is in the recovery index and old enough to be swept. */
  predicate Stale(s: State) {
    s.durable.score.Some? && s.durable.score.value + RECOVERY_AFTER <= s.now
  }

  function To(s: State, i: nat, k: Consumer): State {
    s.(consumers := s.consumers[i := k])
  }

  function Leave(s: State, i: nat): State {
    s.(consumers := s.consumers - {i})
  }

  /** `DEL` and `ZREM`. */
  function DropAll(s: State): State {
    s.(durable := Dropped(), dropped := s.dropped + multiset(s.durable.list))
  }

  /** `LRANGE key 0 -1`. */
  function ReadList(s: State, i: nat): State {
    if i !in s.consumers || !s.consumers[i].Reading? then s
    else To(s, i, if s.durable.list == [] then Unindexing else Working(s.durable.list))
  }

  /** `ZREM`, after an empty read. */
  function LeaveIndex(s: State, i: nat): State {
    if i !in s.consumers || !s.consumers[i].Unindexing? then s
    else Leave(s, i).(durable := s.durable.(score := None))
  }

  function ExecuteNext(s: State, i: nat, ok: bool): State {
    if i !in s.consumers || !s.consumers[i].Working? then s
    else
      var todo := s.consumers[i].todo;
      if todo == [] then Leave(s, i)
      else if ok then To(s, i, Acking(todo[0], todo[1..])).(succeeded := s.succeeded + multiset{todo[0]})
      else To(s, i, Working(todo[1..]))
  }

  /** `LREM key 1 raw`; it may take effect and still throw. */
  function RemoveEntry(s: State, i: nat, threw: bool): State {
    if i !in s.consumers || !s.consumers[i].Acking? then s
    else
      var task, todo := s.consumers[i].task, s.consumers[i].todo;
      To(s, i, if threw then Working(todo) else Counting(todo)).(
        durable := s.durable.(list := Without(s.durable.list, task)),
        removed := s.removed + if task in s.durable.list then multiset{task} else multiset{})
  }

  /** `LLEN`. */
  function CountEntries(s: State, i: nat): State {
    if i !in s.consumers || !s.consumers[i].Counting? then s
    else To(s, i, if s.durable.list == [] then Dropping(s.consumers[i].todo) else Working(s.consumers[i].todo))
  }

  function DropEntries(s: State, i: nat): State {
    if i !in s.consumers || !s.consumers[i].Dropping? then s
    else To(DropAll(s), i, Working(s.consumers[i].todo))
  }

  /** A command that throws without effect: the pass goes on with its next task, or, outside the
      tasks, ends. */
  function Fail(s: State, i: nat): State
    requires i in s.consumers
  {
    match s.consumers[i]
    case Acking(_, todo) => To(s, i, Working(todo))
    case Counting(todo) => To(s, i, Working(todo))
    case Dropping(todo) => To(s, i, Working(todo))
    case _ => Leave(s, i)
  }

  predicate OfConsumer(e: Event) {
    e.Range? || e.Unindex? || e.Execute? || e.Remove? || e.Count? || e.Drop? || e.Throw? || e.Crash?
  }

  function Apply(c: Config, s: State, e: Event): State {
    match e
    case Tick(d) => s.(now := s.now + d)
    case Schedule(task, threw) =>
      if !MayAppend(c, s) then s
      else s.(durable := Append(s.durable, task, s.now), lastAppend := Some(s.now),
              appended := s.appended + multiset{task}, marked := s.marked || !threw)
    case End(commit) =>
      if s.outcome.Open? then s.(outcome := if commit then Committed else RolledBack) else s
    case Flush(i) =>
      if i in s.consumers || !s.marked || s.outcome.RolledBack? then s
      else To(s, i, Reading).(marked := false, flushed := true)
    case ClearMarker => s.(marked := false)
    case Purge => if s.outcome.RolledBack? then DropAll(s).(marked := false) else s
    case Sweep(i) => if i in s.consumers || !Stale(s) then s else To(s, i, Reading)
    case Range(i) => ReadList(s, i)
    case Unindex(i) => LeaveIndex(s, i)
    case Execute(i, ok) => ExecuteNext(s, i, ok)
    case Remove(i, threw) => RemoveEntry(s, i, threw)
    case Count(i) => CountEntries(s, i)
    case Drop(i) => DropEntries(s, i)
    case Throw(i) => if i in s.consumers then Fail(s, i) else s
    case Crash(i) => Leave(s, i)
  }

  function Exec(c: Config, es: seq<Event>): State {
    if es == [] then Init() else Apply(c, Exec(c, es[..|es| - 1]), es[|es| - 1])
  }

  lemma ExecSnoc(c: Config, es: seq<Event>, e: Event)
    ensures Exec(c, es + [e]) == Apply(c, Exec(c, es), e)
  {
    assert (es + [e])[..|es|] == es;
  }

  // ----- What every run keeps -----

  /** The consumers that have executed `task` and not yet removed it. */
  function Ackers(consumers: map<nat, Consumer>, task: Task): set<nat> {
    set i | i in consumers && Claims(consumers[i], task)
  }

  predicate Claims(k: Consumer, task: Task) {
    k.Acking? && k.task == task
  }

  /** Every appended entry is still listed, was acknowledged, or was dropped. */
  predicate Conserved(s: State) {
    s.appended == multiset(s.durable.list) + s.removed + s.dropped
  }

  /** No entry is removed before a success of its own: successes cover the removals made and those
      under way. */
  predicate Covered(s: State, task: Task) {
    s.removed[task] + |Ackers(s.consumers, task)| <= s.succeeded[task]
  }

  lemma ConservedRemove(s: State, i: nat, threw: bool)
    requires Conserved(s)
    ensures Conserved(RemoveEntry(s, i, threw))
  {
    if i in s.consumers && s.consumers[i].Acking? {
      var task, listed := s.consumers[i].task, multiset(s.durable.list);
      WithoutRemovesOne(s.durable.list, task);
      if task in s.durable.list {
        assert listed == (listed - multiset{task}) + multiset{task};
      }
    }
  }

  lemma ConservedAppend(c: Config, s: State, e: Event)
    requires Conserved(s) && e.Schedule?
    ensures Conserved(Apply(c, s, e))
  {
    assert multiset(s.durable.list + [e.task]) == multiset(s.durable.list) + multiset{e.task};
  }

  lemma ConservedDrop(c: Config, s: State, e: Event)
    requires Conserved(s) && (e.Purge? || e.Drop?)
    ensures Conserved(Apply(c, s, e))
  {
    assert multiset(Dropped().list) == multiset{};
  }

  predicate MovesEntries(e: Event) {
    e.Remove? || e.Schedule? || e.Purge? || e.Drop?
  }

  lemma EntriesStay(c: Config, s: State, e: Event)
    requires !MovesEntries(e)
    ensures var s' := Apply(c, s, e);
            && s'.durable.list == s.durable.list && s'.removed == s.removed
            && s'.dropped == s.dropped && s'.appended == s.appended
  {
  }

  lemma ConservedStep(c: Config, s: State, e: Event)
    requires Conserved(s)
    ensures Conserved(Apply(c, s, e))
  {
    if e.Remove? { ConservedRemove(s, e.consumer, e.threw); }
    else if e.Schedule? { ConservedAppend(c, s, e); }
    else if MovesEntries(e) { ConservedDrop(c, s, e); }
    else { EntriesStay(c, s, e); }
  }

  function IsAcker(consumers: map<nat, Consumer>, i: nat, task: Task): nat {
    if i in Ackers(consumers, task) then 1 else 0
  }

  /** Only consumer `i` was started, moved or ended. */
  ghost predicate OnlyMoves(before: map<nat, Consumer>, after: map<nat, Consumer>, i: nat) {
    forall k :: k in before || k in after ==> k == i || (k in before && k in after && before[k] == after[k])
  }

  lemma AckersChange(before: map<nat, Consumer>, after: map<nat, Consumer>, i: nat, task: Task)
    requires OnlyMoves(before, after, i)
    ensures |Ackers(after, task)| + IsAcker(before, i, task) == |Ackers(before, task)| + IsAcker(after, i, task)
  {
    assert forall k :: k != i ==> (k in Ackers(before, task) <==> k in Ackers(after, task));
    WithoutOne(Ackers(before, task), Ackers(after, task), i);
  }

  lemma WithoutOne(a: set<nat>, b: set<nat>, i: nat)
    requires forall k :: k != i ==> (k in a <==> k in b)
    ensures |b| + (if i in a then 1 else 0) == |a| + (if i in b then 1 else 0)
  {
    assert a - {i} == b - {i};
    assert |a - {i}| == |a| - if i in a then 1 else 0;
    assert |b - {i}| == |b| - if i in b then 1 else 0;
  }

  /** A step that moves one consumer: successes grow with its claim, removals use it up. */
  lemma CoveredBy(s: State, s': State, i: nat, task: Task)
    requires Covered(s, task) && OnlyMoves(s.consumers, s'.consumers, i)
    requires s'.removed[task] + IsAcker(s'.consumers, i, task) + s.succeeded[task]
          <= s.removed[task] + IsAcker(s.consumers, i, task) + s'.succeeded[task]
    ensures Covered(s', task)
  {
    AckersChange(s.consumers, s'.consumers, i, task);
  }

  lemma CoveredExecute(s: State, i: nat, task: Task, ok: bool)
    requires Covered(s, task)
    ensures Covered(ExecuteNext(s, i, ok), task)
  {
    CoveredBy(s, ExecuteNext(s, i, ok), i, task);
  }

  lemma CoveredRemove(s: State, i: nat, task: Task, threw: bool)
    requires Covered(s, task)
    ensures Covered(RemoveEntry(s, i, threw), task)
  {
    CoveredBy(s, RemoveEntry(s, i, threw), i, task);
  }

  lemma CoveredRead(c: Config, s: State, e: Event, task: Task)
    requires Covered(s, task) && (e.Range? || e.Unindex? || e.Crash?)
    ensures Covered(Apply(c, s, e), task)
  {
    CoveredBy(s, Apply(c, s, e), e.consumer, task);
  }

  lemma CoveredCount(c: Config, s: State, e: Event, task: Task)
    requires Covered(s, task) && (e.Count? || e.Drop?)
    ensures Covered(Apply(c, s, e), task)
  {
    CoveredBy(s, Apply(c, s, e), e.consumer, task);
  }

  lemma CoveredThrow(c: Config, s: State, e: Event, task: Task)
    requires Covered(s, task) && e.Throw?
    ensures Covered(Apply(c, s, e), task)
  {
    CoveredBy(s, Apply(c, s, e), e.consumer, task);
  }

  lemma CoveredOutside(c: Config, s: State, e: Event, task: Task)
    requires Covered(s, task) && !OfConsumer(e)
    ensures Covered(Apply(c, s, e), task)
  {
    CoveredBy(s, Apply(c, s, e), if e.Flush? || e.Sweep? then e.consumer else 0, task);
  }

  lemma CoveredStep(c: Config, s: State, e: Event, task: Task)
    requires Covered(s, task)
    ensures Covered(Apply(c, s, e), task)
  {
    if !OfConsumer(e) { CoveredOutside(c, s, e, task); }
    else if e.Execute? { CoveredExecute(s, e.consumer, task, e.ok); }
    else if e.Remove? { CoveredRemove(s, e.consumer, task, e.threw); }
    else if e.Throw? { CoveredThrow(c, s, e, task); }
    else if e.Count? || e.Drop? { CoveredCount(c, s, e, task); }
    else { CoveredRead(c, s, e, task); }
  }

  lemma {:induction false} AlwaysConserved(c: Config, es: seq<Event>, task: Task)
    ensures Conserved(Exec(c, es)) && Covered(Exec(c, es), task)
  {
    if es == [] {
      assert Ackers(Init().consumers, task) == {};
    } else {
      AlwaysConserved(c, es[..|es| - 1], task);
      ConservedStep(c, Exec(c, es[..|es| - 1]), es[|es| - 1]);
      CoveredStep(c, Exec(c, es[..|es| - 1]), es[|es| - 1], task);
    }
  }

  /** Acknowledgement never precedes success, in every run: what left the list other than by a drop
      has succeeded at least as often. */
  lemma AcknowledgedHasSucceeded(c: Config, es: seq<Event>)
    ensures var s := Exec(c, es);
            && s.appended == multiset(s.durable.list) + s.removed + s.dropped
            && s.removed <= s.succeeded
  {
    AlwaysConserved(c, es, "");
    forall task: Task ensures Exec(c, es).removed[task] <= Exec(c, es).succeeded[task] { AlwaysConserved(c, es, task); }
  }

  // ----- When nothing is lost -----

  /** A request that was not rolled back has every appended task listed or executed, and the sweeper
      can find what is listed. */
  predicate Durably(s: State) {
    !s.outcome.RolledBack? ==>
      s.appended <= multiset(s.durable.list) + s.succeeded && (s.durable.list != [] ==> s.durable.score.Some?)
  }

  predicate Quiet(c: Config) {
    c.maxGap < RECOVERY_AFTER && !c.lateAppends
  }

  /** No append can follow any more. */
  predicate Closed(s: State) {
    s.flushed || (s.lastAppend.Some? && s.lastAppend.value + RECOVERY_AFTER <= s.now)
  }

  predicate SawEmpty(k: Consumer) {
    k.Dropping? || k.Unindexing?
  }

  predicate Timed(s: State) {
    && (s.lastAppend.Some? ==> s.lastAppend.value <= s.now)
    && (s.durable.score.Some? ==> s.durable.score == s.lastAppend)
  }

  predicate Settled(s: State) {
    && (s.consumers != map[] ==> Closed(s))
    && (forall i :: i in s.consumers && SawEmpty(s.consumers[i]) ==> s.durable.list == [])
    && (s.durable.list != [] ==> s.durable.score.Some?)
    && (s.dropped != multiset{} ==> s.outcome.RolledBack?)
  }

  lemma TimedStep(c: Config, s: State, e: Event)
    requires Timed(s)
    ensures Timed(Apply(c, s, e))
  {
  }

  lemma {:induction false} AlwaysTimed(c: Config, es: seq<Event>)
    ensures Timed(Exec(c, es))
  {
    if es != [] {
      AlwaysTimed(c, es[..|es| - 1]);
      TimedStep(c, Exec(c, es[..|es| - 1]), es[|es| - 1]);
    }
  }

  /** A step of consumer `i` that empties the list or leaves it alone. */
  lemma SettledBy(s: State, s': State, i: nat)
    requires Settled(s) && i in s.consumers && OnlyMoves(s.consumers, s'.consumers, i)
    requires s'.now == s.now && s'.flushed == s.flushed && s'.lastAppend == s.lastAppend && s'.outcome == s.outcome
    requires s'.dropped == s.dropped
    requires s.durable.list == [] ==> s'.durable.list == []
    requires s'.durable.list != [] ==> s'.durable.score == s.durable.score
    requires i in s'.consumers && SawEmpty(s'.consumers[i]) ==> s'.durable.list == []
    ensures Settled(s')
  {
  }

  lemma SettledDrop(s: State, i: nat)
    requires Settled(s)
    ensures Settled(DropEntries(s, i))
  {
    if i in s.consumers && s.consumers[i].Dropping? {
      assert s.dropped + multiset([]) == s.dropped;
      SettledBy(s, DropEntries(s, i), i);
    }
  }

  lemma SettledRead(s: State, i: nat)
    requires Settled(s)
    ensures Settled(ReadList(s, i))
  {
    if i in s.consumers { SettledBy(s, ReadList(s, i), i); }
  }

  lemma SettledLeave(s: State, i: nat)
    requires Settled(s)
    ensures Settled(LeaveIndex(s, i)) && Settled(Leave(s, i))
  {
    if i in s.consumers {
      SettledBy(s, LeaveIndex(s, i), i);
      SettledBy(s, Leave(s, i), i);
    }
  }

  lemma SettledExecute(s: State, i: nat, ok: bool)
    requires Settled(s)
    ensures Settled(ExecuteNext(s, i, ok))
  {
    if i in s.consumers { SettledBy(s, ExecuteNext(s, i, ok), i); }
  }

  lemma SettledRemove(s: State, i: nat, threw: bool)
    requires Settled(s)
    ensures Settled(RemoveEntry(s, i, threw))
  {
    if i in s.consumers { SettledBy(s, RemoveEntry(s, i, threw), i); }
  }

  lemma SettledCount(s: State, i: nat)
    requires Settled(s)
    ensures Settled(CountEntries(s, i))
  {
    if i in s.consumers { SettledBy(s, CountEntries(s, i), i); }
  }

  lemma SettledFail(s: State, i: nat)
    requires Settled(s) && i in s.consumers
    ensures Settled(Fail(s, i))
  {
    SettledBy(s, Fail(s, i), i);
  }

  lemma SettledOther(c: Config, s: State, e: Event)
    requires Quiet(c) && Timed(s) && Settled(s) && !OfConsumer(e)
    ensures Settled(Apply(c, s, e))
  {
  }

  lemma {:induction false} AlwaysSettled(c: Config, es: seq<Event>)
    requires Quiet(c)
    ensures Settled(Exec(c, es))
  {
    if es != [] {
      var s, e := Exec(c, es[..|es| - 1]), es[|es| - 1];
      AlwaysSettled(c, es[..|es| - 1]);
      AlwaysTimed(c, es[..|es| - 1]);
      if !OfConsumer(e) { SettledOther(c, s, e); }
      else if e.Execute? { SettledExecute(s, e.consumer, e.ok); }
      else if e.Remove? { SettledRemove(s, e.consumer, e.threw); }
      else if e.Drop? { SettledDrop(s, e.consumer); }
      else if e.Count? { SettledCount(s, e.consumer); }
      else if e.Throw? { if e.consumer in s.consumers { SettledFail(s, e.consumer); } }
      else if e.Range? { SettledRead(s, e.consumer); }
      else { SettledLeave(s, e.consumer); }
    }
  }

  lemma AlwaysDurable(c: Config, es: seq<Event>)
    requires Quiet(c)
    ensures Durably(Exec(c, es))
  {
    AlwaysSettled(c, es);
    AcknowledgedHasSucceeded(c, es);
  }

  /** `late` is appended between a consumer's `LLEN` and its `DEL`. */
  lemma RaceLoses(c: Config, es: seq<Event>, task: Task, late: Task) returns (run: seq<Event>)
    requires task != late && MayAppend(c, Exec(c, es))
    requires var s := Exec(c, es); 0 in s.consumers && s.consumers[0].Reading? && s.durable.list == [task]
    requires Exec(c, es).succeeded == multiset{} && Exec(c, es).outcome.Open?
    ensures !Durably(Exec(c, run))
  {
    run := ReachesDrop(c, es, task);
    ExecSnoc(c, run, Schedule(late, false));
    run := run + [Schedule(late, false)];
    ExecSnoc(c, run, Drop(0));
    run := run + [Drop(0)];
    assert late in Exec(c, run).appended && late !in Exec(c, run).succeeded;
  }

  lemma ReachesDrop(c: Config, es: seq<Event>, task: Task) returns (run: seq<Event>)
    requires var s := Exec(c, es); 0 in s.consumers && s.consumers[0].Reading? && s.durable.list == [task]
    requires Exec(c, es).succeeded == multiset{}
    ensures var s, s' := Exec(c, es), Exec(c, run);
            && 0 in s'.consumers && s'.consumers[0] == Dropping([]) && s'.durable.list == []
            && s'.succeeded == multiset{task} && s'.outcome == s.outcome
            && s'.now == s.now && s'.lastAppend == s.lastAppend && s'.flushed == s.flushed
  {
    run := ReachesCount(c, es, task);
    ExecSnoc(c, run, Count(0));
    run := run + [Count(0)];
  }

  lemma ReachesCount(c: Config, es: seq<Event>, task: Task) returns (run: seq<Event>)
    requires var s := Exec(c, es); 0 in s.consumers && s.consumers[0].Reading? && s.durable.list == [task]
    requires Exec(c, es).succeeded == multiset{}
    ensures var s, s' := Exec(c, es), Exec(c, run);
            && 0 in s'.consumers && s'.consumers[0] == Counting([]) && s'.durable.list == []
            && s'.succeeded == multiset{task} && s'.outcome == s.outcome
            && s'.now == s.now && s'.lastAppend == s.lastAppend && s'.flushed == s.flushed
  {
    ExecSnoc(c, es, Range(0));
    run := es + [Range(0)];
    ExecSnoc(c, run, Execute(0, true));
    run := run + [Execute(0, true)];
    ExecSnoc(c, run, Remove(0, false));
    run := run + [Remove(0, false)];
  }

  /** A request with one task, appended at time 0. */
  lemma OneTask(c: Config, task: Task) returns (run: seq<Event>)
    ensures var s := Exec(c, run);
            && s.now == 0 && s.durable == Durable([task], Some(0)) && s.consumers == map[]
            && s.marked && s.outcome.Open?
            && !s.flushed && s.lastAppend == Some(0) && s.succeeded == multiset{}
  {
    ExecSnoc(c, [], Schedule(task, false));
    run := [Schedule(task, false)];
    assert [] + run == run;
  }

  lemma LateAppendLoses(c: Config, task: Task, late: Task) returns (run: seq<Event>)
    requires c.lateAppends && task != late
    ensures !Durably(Exec(c, run))
  {
    run := OneTask(c, task);
    ExecSnoc(c, run, Flush(0));
    run := run + [Flush(0)];
    run := RaceLoses(c, run, task, late);
  }

  lemma SlowAppendLoses(c: Config, task: Task, late: Task) returns (run: seq<Event>)
    requires RECOVERY_AFTER <= c.maxGap && task != late
    ensures !Durably(Exec(c, run))
  {
    run := OneTask(c, task);
    ExecSnoc(c, run, Tick(RECOVERY_AFTER));
    run := run + [Tick(RECOVERY_AFTER)];
    ExecSnoc(c, run, Sweep(0));
    run := run + [Sweep(0)];
    run := RaceLoses(c, run, task, late);
  }

  /** In every run, whatever crashes, a task appended for a request that is not rolled back is
      listed where the sweeper finds it or has been executed, exactly when appends precede the
      request's flush and follow each other faster than the sweeper's age. */
  lemma DurableExactlyWhenQuiet(c: Config)
    ensures (forall es :: Durably(Exec(c, es))) <==> c.maxGap < RECOVERY_AFTER && !c.lateAppends
  {
    if Quiet(c) {
      forall es ensures Durably(Exec(c, es)) { AlwaysDurable(c, es); }
    } else if c.lateAppends {
      var run := LateAppendLoses(c, "a", "b");
    } else {
      var run := SlowAppendLoses(c, "a", "b");
    }
  }

  // ----- Recovery -----

  predicate Draining(s: State, i: nat) {
    i in s.consumers && s.consumers[i] == Working(s.durable.list)
  }

  /** One task is executed and removed from the head of the list; no command throws. */
  lemma ExecuteAndRemove(c: Config, es: seq<Event>, i: nat) returns (run: seq<Event>)
    requires Draining(Exec(c, es), i) && Exec(c, es).durable.list != []
    ensures run == es + [Execute(i, true)] + [Remove(i, false)]
    ensures var s, s' := Exec(c, es), Exec(c, run); var rest := s.durable.list[1..];
            && i in s'.consumers && s'.consumers[i] == Counting(rest) && s'.durable == s.durable.(list := rest)
            && s'.succeeded == s.succeeded + multiset{s.durable.list[0]} && s'.appended == s.appended
  {
    ExecSnoc(c, es, Execute(i, true));
    run := es + [Execute(i, true)];
    ExecSnoc(c, run, Remove(i, false));
    run := run + [Remove(i, false)];
  }

  /** One task of a pass that goes on. */
  lemma DrainStep(c: Config, es: seq<Event>, i: nat) returns (run: seq<Event>)
    requires Draining(Exec(c, es), i) && |Exec(c, es).durable.list| > 1
    ensures run == es + [Execute(i, true)] + [Remove(i, false)] + [Count(i)]
    ensures var s, s' := Exec(c, es), Exec(c, run);
            && Draining(s', i) && s'.durable.list == s.durable.list[1..]
            && s'.succeeded == s.succeeded + multiset{s.durable.list[0]} && s'.appended == s.appended
  {
    run := ExecuteAndRemove(c, es, i);
    ExecSnoc(c, run, Count(i));
    run := run + [Count(i)];
  }

  /** The last task of a pass: the count finds nothing. */
  lemma LastCounted(c: Config, es: seq<Event>, i: nat) returns (run: seq<Event>)
    requires Draining(Exec(c, es), i) && |Exec(c, es).durable.list| == 1
    ensures run == es + [Execute(i, true)] + [Remove(i, false)] + [Count(i)]
    ensures var s, s' := Exec(c, es), Exec(c, run);
            && i in s'.consumers && s'.consumers[i] == Dropping([]) && s'.appended == s.appended
            && s'.succeeded == s.succeeded + multiset{s.durable.list[0]}
  {
    run := ExecuteAndRemove(c, es, i);
    ExecSnoc(c, run, Count(i));
    run := run + [Count(i)];
  }

  /** The list and its index entry go. */
  lemma LastStep(c: Config, es: seq<Event>, i: nat) returns (run: seq<Event>)
    requires Draining(Exec(c, es), i) && |Exec(c, es).durable.list| == 1
    ensures run == es + [Execute(i, true)] + [Remove(i, false)] + [Count(i)] + [Drop(i)]
    ensures var s, s' := Exec(c, es), Exec(c, run);
            && s'.durable == Dropped() && s'.succeeded == s.succeeded + multiset{s.durable.list[0]}
            && s'.appended == s.appended
  {
    run := LastCounted(c, es, i);
    ExecSnoc(c, run, Drop(i));
    run := run + [Drop(i)];
  }

  /** The commands of a pass over `n` tasks in which nothing throws. */
  function PassFrom(es: seq<Event>, i: nat, n: nat): seq<Event>
    decreases n
  {
    if n == 0 then es
    else
      var counted := es + [Execute(i, true)] + [Remove(i, false)] + [Count(i)];
      if n == 1 then counted + [Drop(i)] else PassFrom(counted, i, n - 1)
  }

  /** A pass in which nothing throws executes exactly the list it read, and takes the request out of
      the store and the recovery index. */
  lemma {:induction false} PassDrains(c: Config, es: seq<Event>, i: nat)
    requires Draining(Exec(c, es), i) && Exec(c, es).durable.list != []
    ensures var s, s' := Exec(c, es), Exec(c, PassFrom(es, i, |Exec(c, es).durable.list|));
            && s'.durable == Dropped() && s'.appended == s.appended
            && s'.succeeded == s.succeeded + multiset(s.durable.list)
    decreases |Exec(c, es).durable.list|
  {
    var list := Exec(c, es).durable.list;
    if |list| == 1 {
      var run := LastStep(c, es, i);
      assert list == [list[0]];
    } else {
      var run := DrainStep(c, es, i);
      PassDrains(c, run, i);
      AddHead(Exec(c, es).succeeded, list[0], list);
    }
  }

  lemma AddHead(done: multiset<Task>, task: Task, list: seq<Task>)
    requires list != [] && task == list[0]
    ensures done + multiset{task} + multiset(list[1..]) == done + multiset(list)
  {
    HeadAndTail(list);
  }

  /** A stale request is picked up and its list read. */
  lemma SweepStarts(c: Config, es: seq<Event>, i: nat) returns (run: seq<Event>)
    requires i !in Exec(c, es).consumers && Timed(Exec(c, es)) && Exec(c, es).durable.score.Some?
    ensures run == es + [Tick(RECOVERY_AFTER)] + [Sweep(i)] + [Range(i)]
    ensures var s, s' := Exec(c, es), Exec(c, run);
            && s'.durable == s.durable && s'.appended == s.appended && s'.succeeded == s.succeeded && i in s'.consumers
            && s'.consumers[i] == (if s.durable.list == [] then Unindexing else Working(s.durable.list))
  {
    ExecSnoc(c, es, Tick(RECOVERY_AFTER));
    run := es + [Tick(RECOVERY_AFTER)];
    ExecSnoc(c, run, Sweep(i));
    run := run + [Sweep(i)];
    ExecSnoc(c, run, Range(i));
    run := run + [Range(i)];
  }

  /** The request waits until it is stale and is swept once, undisturbed and without errors. */
  function SweepOnce(es: seq<Event>, i: nat, n: nat): seq<Event> {
    var started := es + [Tick(RECOVERY_AFTER)] + [Sweep(i)] + [Range(i)];
    if n == 0 then started + [Unindex(i)] else PassFrom(started, i, n)
  }

  /** A sweep that finds tasks. */
  lemma SweepDrains(c: Config, es: seq<Event>, i: nat)
    requires i !in Exec(c, es).consumers && Timed(Exec(c, es)) && Exec(c, es).durable.score.Some?
    requires Exec(c, es).durable.list != []
    ensures var s, s' := Exec(c, es), Exec(c, SweepOnce(es, i, |Exec(c, es).durable.list|));
            && s'.durable == Dropped() && s'.appended == s.appended
            && s'.succeeded == s.succeeded + multiset(s.durable.list)
  {
    var run := SweepStarts(c, es, i);
    PassDrains(c, run, i);
  }

  /** A sweep that finds an indexed but empty list. */
  lemma SweepUnindexes(c: Config, es: seq<Event>, i: nat)
    requires i !in Exec(c, es).consumers && Timed(Exec(c, es)) && Exec(c, es).durable.score.Some?
    requires Exec(c, es).durable.list == []
    ensures var s, s' := Exec(c, es), Exec(c, SweepOnce(es, i, 0));
            s'.durable == Dropped() && s'.appended == s.appended && s'.succeeded == s.succeeded
  {
    var run := SweepStarts(c, es, i);
    ExecSnoc(c, run, Unindex(i));
  }

  /** From every reachable state of a quiet request that is still indexed, whatever crashed before,
      that sweep leaves every appended task executed and the request gone from list and index. */
  lemma SweepRecovers(c: Config, es: seq<Event>, i: nat)
    requires Quiet(c) && i !in Exec(c, es).consumers && !Exec(c, es).outcome.RolledBack?
    requires Exec(c, es).durable.score.Some?
    ensures var s' := Exec(c, SweepOnce(es, i, |Exec(c, es).durable.list|));
            && s'.durable == Dropped() && s'.appended == Exec(c, es).appended && s'.appended <= s'.succeeded
  {
    AlwaysDurable(c, es);
    AlwaysTimed(c, es);
    if Exec(c, es).durable.list == [] {
      SweepUnindexes(c, es, i);
    } else {
      SweepDrains(c, es, i);
    }
  }

  /** A request that is no longer indexed has nothing left to recover. */
  lemma UnindexedIsDone(c: Config, es: seq<Event>)
    requires Quiet(c) && !Exec(c, es).outcome.RolledBack? && Exec(c, es).durable.score.None?
    ensures Exec(c, es).durable == Dropped() && Exec(c, es).appended <= Exec(c, es).succeeded
  {
    AlwaysDurable(c, es);
  }
}
