/**
 The in-memory half of `flushOnCommit` in `event-bus.ts`: the queue is spliced out and its tasks
 are run by a bounded number of workers that share one cursor. A step is one JavaScript run
 between two awaits: a worker takes the next task or finds none, a task settles, or other code
 queues a task meanwhile.
 */
module OnCommitPool {
  import opened Prelude

  const MAX_CONCURRENT_ON_COMMIT_TASKS: nat := 8

  type Task = string

  datatype Worker = Idle | Running(index: nat) | Done

  /** The tasks spliced out of the queue, and the bound on workers. */
  datatype Config = Config(tasks: seq<Task>, limit: nat)

  /** `started` logs task indices as they start; `settled` maps an index to its success. */
  datatype State = State(
    cursor: nat,
    workers: seq<Worker>,
    started: seq<nat>,
    settled: map<nat, bool>,
    queue: seq<Task>)

  datatype Event =
    | Take(worker: nat)
    | Settle(worker: nat, ok: bool)
    | Queue(task: Task)

  function WorkerCount(c: Config): nat {
    Min(|c.tasks|, c.limit)
  }

  function Init(c: Config): State {
    State(0, seq(WorkerCount(c), _ => Idle), [], map[], [])
  }

  /** The head of the worker loop: `tasks[nextTaskIndex++]`, or the loop ends. */
  function TakeNext(c: Config, s: State, w: nat): State
    requires w < |s.workers|
  {
    if s.cursor < |c.tasks| then
      s.(cursor := s.cursor + 1, workers := s.workers[w := Running(s.cursor)], started := s.started + [s.cursor])
    else s.(workers := s.workers[w := Done])
  }

  /** A task resolves, or rejects and the error is logged; either way the worker goes on. */
  function SettleTask(s: State, w: nat, ok: bool): State
    requires w < |s.workers| && s.workers[w].Running?
  {
    s.(workers := s.workers[w := Idle], settled := s.settled[s.workers[w].index := ok])
  }

  function Apply(c: Config, s: State, e: Event): State {
    match e
    case Take(w) => if w < |s.workers| && s.workers[w].Idle? then TakeNext(c, s, w) else s
    case Settle(w, ok) => if w < |s.workers| && s.workers[w].Running? then SettleTask(s, w, ok) else s
    case Queue(task) => s.(queue := s.queue + [task])
  }

  function Exec(c: Config, es: seq<Event>): State {
    if es == [] then Init(c) else Apply(c, Exec(c, es[..|es| - 1]), es[|es| - 1])
  }

  lemma ExecSnoc(c: Config, es: seq<Event>, e: Event)
    ensures Exec(c, es + [e]) == Apply(c, Exec(c, es), e)
  {
    assert (es + [e])[..|es|] == es;
  }

  /** `Promise.all` resolves: every worker's loop has ended. */
  predicate Returned(s: State) {
    forall w :: 0 <= w < |s.workers| ==> s.workers[w].Done?
  }

  function Busy(s: State): set<nat> {
    set w | 0 <= w < |s.workers| && s.workers[w].Running?
  }

  /** What `onCommit` queued during the run, in order. */
  function Queued(es: seq<Event>): seq<Task> {
    if es == [] then []
    else Queued(es[..|es| - 1]) + if es[|es| - 1].Queue? then [es[|es| - 1].task] else []
  }

  // ----- Invariant -----

  predicate StartedInOrder(s: State) {
    |s.started| == s.cursor && forall k :: 0 <= k < |s.started| ==> s.started[k] == k
  }

  predicate WorkerOk(c: Config, s: State, w: Worker) {
    && (w.Running? ==> w.index < s.cursor && w.index !in s.settled)
    && (w.Done? ==> s.cursor == |c.tasks|)
  }

  predicate Distinct(s: State) {
    forall v, w :: 0 <= v < w < |s.workers| && s.workers[v].Running? ==> s.workers[v] != s.workers[w]
  }

  predicate Ok(c: Config, s: State) {
    && |s.workers| == WorkerCount(c) && s.cursor <= |c.tasks|
    && StartedInOrder(s) && Distinct(s)
    && (forall w :: 0 <= w < |s.workers| ==> WorkerOk(c, s, s.workers[w]))
    && (forall k :: k in s.settled ==> k < s.cursor)
    && |Busy(s)| + |s.settled| == s.cursor
  }

  lemma OkTake(c: Config, s: State, w: nat)
    requires Ok(c, s) && w < |s.workers| && s.workers[w].Idle? && s.cursor < |c.tasks|
    ensures Ok(c, TakeNext(c, s, w))
  {
    var s' := TakeNext(c, s, w);
    assert w !in Busy(s) && Busy(s') == Busy(s) + {w};
    forall v | 0 <= v < |s'.workers| ensures WorkerOk(c, s', s'.workers[v]) { assert WorkerOk(c, s, s.workers[v]); }
    forall u, v | 0 <= u < v < |s'.workers| && s'.workers[u].Running? ensures s'.workers[u] != s'.workers[v] {
      assert WorkerOk(c, s, s.workers[u]) && WorkerOk(c, s, s.workers[v]);
    }
  }

  lemma OkEnd(c: Config, s: State, w: nat)
    requires Ok(c, s) && w < |s.workers| && s.workers[w].Idle? && s.cursor == |c.tasks|
    ensures Ok(c, TakeNext(c, s, w))
  {
    var s' := TakeNext(c, s, w);
    assert Busy(s') == Busy(s);
  }

  lemma OkSettle(c: Config, s: State, w: nat, ok: bool)
    requires Ok(c, s) && w < |s.workers| && s.workers[w].Running?
    ensures Ok(c, SettleTask(s, w, ok))
  {
    var s' := SettleTask(s, w, ok);
    assert WorkerOk(c, s, s.workers[w]);
    SettleCounts(s, w, ok);
    forall v | 0 <= v < |s'.workers| ensures WorkerOk(c, s', s'.workers[v]) {
      assert WorkerOk(c, s, s.workers[v]);
      if v < w { assert s.workers[v].Running? ==> s.workers[v] != s.workers[w]; }
      if w < v { assert s.workers[w] != s.workers[v]; }
    }
  }

  lemma SettleCounts(s: State, w: nat, ok: bool)
    requires w < |s.workers| && s.workers[w].Running? && s.workers[w].index !in s.settled
    ensures var s' := SettleTask(s, w, ok); |Busy(s')| + |s'.settled| == |Busy(s)| + |s.settled|
  {
    var s' := SettleTask(s, w, ok);
    assert Busy(s) == Busy(s') + {w};
    assert |s'.settled| == |s.settled| + 1;
  }

  lemma {:induction false} AlwaysOk(c: Config, es: seq<Event>)
    ensures Ok(c, Exec(c, es)) && Exec(c, es).queue == Queued(es)
  {
    if es == [] {
      assert Busy(Init(c)) == {};
    } else {
      var s, e := Exec(c, es[..|es| - 1]), es[|es| - 1];
      AlwaysOk(c, es[..|es| - 1]);
      match e
      case Take(w) =>
        if w < |s.workers| && s.workers[w].Idle? {
          if s.cursor < |c.tasks| { OkTake(c, s, w); } else { OkEnd(c, s, w); }
        }
      case Settle(w, ok) => if w < |s.workers| && s.workers[w].Running? { OkSettle(c, s, w, ok); }
      case Queue(_) => assert Busy(Apply(c, s, e)) == Busy(s);
    }
  }

  // ----- Main theorems -----

  /** The indices below `n`. */
  function Indices(n: nat): set<nat> {
    if n == 0 then {} else Indices(n - 1) + {n - 1}
  }

  lemma {:induction false} IndicesAre(n: nat)
    ensures |Indices(n)| == n && forall k: nat :: k in Indices(n) <==> k < n
  {
    if n > 0 { IndicesAre(n - 1); }
  }

  lemma {:induction false} SetBound(a: set<nat>, n: nat)
    requires forall x :: x in a ==> x < n
    ensures |a| <= n && (|a| == n ==> a == Indices(n))
  {
    if n > 0 {
      SetBound(a - {n - 1}, n - 1);
      if |a| == n { assert a == (a - {n - 1}) + {n - 1}; }
    }
  }

  /** In every schedule tasks start in order and at most once, at most `min(n, limit)` run at a time,
      a started task is running or settled, and what is queued meanwhile stays queued in order. */
  lemma StartedOnceAndBounded(c: Config, es: seq<Event>)
    ensures var s := Exec(c, es);
            && s.cursor <= |c.tasks| && s.started == seq(s.cursor, k => k)
            && |Busy(s)| <= Min(|c.tasks|, c.limit)
            && |Busy(s)| + |s.settled| == |s.started|
            && s.queue == Queued(es)
  {
    AlwaysOk(c, es);
    SetBound(Busy(Exec(c, es)), WorkerCount(c));
  }

  predicate NoneIdle(s: State) {
    forall w :: 0 <= w < |s.workers| ==> !s.workers[w].Idle?
  }

  /** No capacity is wasted: once no worker is between tasks, as many tasks run as the bound and the
      unsettled tasks allow. */
  lemma WorkConserving(c: Config, es: seq<Event>)
    requires NoneIdle(Exec(c, es))
    ensures |Exec(c, es).settled| <= |c.tasks|
    ensures c.limit > 0 ==> |Busy(Exec(c, es))| == Min(c.limit, |c.tasks| - |Exec(c, es).settled|)
  {
    var s := Exec(c, es);
    AlwaysOk(c, es);
    BusyCount(c, s);
  }

  lemma BusyCount(c: Config, s: State)
    requires Ok(c, s) && NoneIdle(s)
    ensures |s.settled| <= |c.tasks|
    ensures c.limit > 0 ==> |Busy(s)| == Min(c.limit, |c.tasks| - |s.settled|)
  {
    assert |Busy(s)| <= WorkerCount(c) by { SetBound(Busy(s), WorkerCount(c)); }
    if s.cursor < |c.tasks| { AllBusy(c, s); }
  }

  lemma AllBusy(c: Config, s: State)
    requires Ok(c, s) && s.cursor < |c.tasks| && NoneIdle(s)
    ensures |Busy(s)| == WorkerCount(c)
  {
    IndicesAre(|s.workers|);
    forall w: nat ensures w in Busy(s) <==> w in Indices(|s.workers|) {
      if w < |s.workers| { assert WorkerOk(c, s, s.workers[w]); }
    }
    assert Busy(s) == Indices(|s.workers|);
  }

  lemma ReturnedHasAll(c: Config, s: State)
    requires Ok(c, s) && Returned(s) && (c.limit > 0 || c.tasks == [])
    ensures s.settled.Keys == Indices(|c.tasks|) && s.cursor == |c.tasks|
  {
    assert Busy(s) == {};
    if c.tasks != [] { assert WorkerOk(c, s, s.workers[0]); }
    SetBound(s.settled.Keys, |c.tasks|);
  }

  lemma ReturnedIsComplete(c: Config, es: seq<Event>)
    requires Returned(Exec(c, es)) && (c.limit > 0 || c.tasks == [])
    ensures Exec(c, es).settled.Keys == Indices(|c.tasks|)
  {
    AlwaysOk(c, es);
    ReturnedHasAll(c, Exec(c, es));
  }

  predicate CompleteOnReturn(c: Config, es: seq<Event>) {
    Returned(Exec(c, es)) ==> Exec(c, es).settled.Keys == Indices(|c.tasks|)
  }

  /** A flush that returns has settled every task it took, failures included, in every schedule,
      exactly when there is a worker to run them. */
  lemma CompleteExactlyWhenWorkers(c: Config)
    ensures (forall es :: CompleteOnReturn(c, es)) <==> c.limit > 0 || c.tasks == []
  {
    if c.limit > 0 || c.tasks == [] {
      forall es ensures CompleteOnReturn(c, es) {
        if Returned(Exec(c, es)) { ReturnedIsComplete(c, es); }
      }
    } else {
      IndicesAre(|c.tasks|);
      assert 0 in Indices(|c.tasks|);
      assert !CompleteOnReturn(c, []);
    }
  }

  /** Steps left: a task is still to be taken and settled, a worker still to end. */
  function WorkerRank(w: Worker): nat {
    match w case Idle => 1 case Running(_) => 2 case Done => 0
  }

  function TotalRank(ws: seq<Worker>): nat {
    if ws == [] then 0 else TotalRank(ws[..|ws| - 1]) + WorkerRank(ws[|ws| - 1])
  }

  function Remaining(c: Config, s: State): int {
    2 * (|c.tasks| - s.cursor) + TotalRank(s.workers)
  }

  lemma {:induction false} TotalRankUpdate(ws: seq<Worker>, i: nat, w: Worker)
    requires i < |ws|
    ensures TotalRank(ws[i := w]) == TotalRank(ws) - WorkerRank(ws[i]) + WorkerRank(w)
  {
    var last := |ws| - 1;
    if i < last {
      TotalRankUpdate(ws[..last], i, w);
      assert ws[i := w][..last] == ws[..last][i := w];
    } else {
      assert ws[i := w][..last] == ws[..last];
    }
  }

  lemma OneStep(c: Config, s: State, w: nat, ok: bool)
    requires Ok(c, s) && w < |s.workers| && !s.workers[w].Done?
    ensures var s' := Apply(c, s, if s.workers[w].Idle? then Take(w) else Settle(w, ok));
            Ok(c, s') && 0 <= Remaining(c, s') == Remaining(c, s) - 1
  {
    var s' := Apply(c, s, if s.workers[w].Idle? then Take(w) else Settle(w, ok));
    TotalRankUpdate(s.workers, w, s'.workers[w]);
    if s.workers[w].Running? {
      OkSettle(c, s, w, ok);
    } else if s.cursor < |c.tasks| {
      OkTake(c, s, w);
    } else {
      OkEnd(c, s, w);
    }
  }

  /** Until the flush returns some worker can step, and every step uses up one of finitely many. */
  lemma StepUsesUp(c: Config, es: seq<Event>, w: nat, ok: bool)
    requires w < |Exec(c, es).workers| && !Exec(c, es).workers[w].Done?
    ensures var e := if Exec(c, es).workers[w].Idle? then Take(w) else Settle(w, ok);
            0 <= Remaining(c, Exec(c, es + [e])) == Remaining(c, Exec(c, es)) - 1
  {
    var s := Exec(c, es);
    AlwaysOk(c, es);
    OneStep(c, s, w, ok);
    ExecSnoc(c, es, if s.workers[w].Idle? then Take(w) else Settle(w, ok));
  }

  // ----- The flush -----

  /** What arrives on the queue before each of the first `n` steps. */
  function Arrived(arrives: nat -> seq<Task>, n: nat): seq<Task> {
    if n == 0 then [] else Arrived(arrives, n - 1) + arrives(n - 1)
  }

  /** The variables the worker closures share. */
  class Pool {
    const taken: seq<Task>
    var cursor: nat
    var workers: seq<Worker>
    var started: seq<nat>
    var settled: map<nat, bool>

    constructor (taken: seq<Task>)
      ensures this.taken == taken && View() == Init(Config(taken, MAX_CONCURRENT_ON_COMMIT_TASKS))
    {
      this.taken := taken;
      cursor, started, settled := 0, [], map[];
      workers := seq(Min(|taken|, MAX_CONCURRENT_ON_COMMIT_TASKS), _ => Idle);
    }

    function View(): State
      reads this
    {
      State(cursor, workers, started, settled, [])
    }

    /** Worker `w` runs to its next await: past a settled task, or into the next one. */
    method Step(w: nat, ok: nat -> bool) returns (ghost e: Event)
      requires w < |workers| && !workers[w].Done?
      modifies this
      ensures e == StepOf(old(View()), w, ok)
      ensures View() == Apply(Config(taken, MAX_CONCURRENT_ON_COMMIT_TASKS), old(View()), e)
    {
      e := StepOf(View(), w, ok);
      if workers[w].Running? {
        settled := settled[workers[w].index := ok(workers[w].index)];
        workers := workers[w := Idle];
      } else if cursor < |taken| {
        started := started + [cursor];
        workers := workers[w := Running(cursor)];
        cursor := cursor + 1;
      } else {
        workers := workers[w := Done];
      }
    }
  }

  /** The queue of one async context. */
  class OnCommitQueue {
    var tasks: seq<Task>

    constructor ()
      ensures tasks == []
    {
      tasks := [];
    }

    method OnCommit(task: Task)
      modifies this
      ensures tasks == old(tasks) + [task]
    {
      tasks := tasks + [task];
    }

    /** The in-memory flush under an arbitrary scheduler: `ok(k)` is how the `k`-th task ends, and
        `arrives(i)` is what other code queues before the `i`-th step. */
    method Flush(ok: nat -> bool, arrives: nat -> seq<Task>) returns (settled: map<nat, bool>, steps: nat)
      modifies this
      ensures settled.Keys == Indices(|old(tasks)|) && forall k :: k in settled ==> settled[k] == ok(k)
      ensures tasks == Arrived(arrives, steps)
      ensures steps == 2 * |old(tasks)| + Min(|old(tasks)|, 8)
    {
      var taken := tasks;
      tasks := [];
      var pool := new Pool(taken);
      ghost var c := Config(taken, MAX_CONCURRENT_ON_COMMIT_TASKS);
      ghost var total := 2 * |taken| + WorkerCount(c);
      ghost var es: seq<Event> := [];
      steps := 0;
      while exists w :: 0 <= w < |pool.workers| && !pool.workers[w].Done?
        invariant pool.taken == taken && pool.View() == Exec(c, es) && Schedule(c, ok, es) && |es| == steps <= total
        invariant tasks == Arrived(arrives, steps)
        decreases total - steps
      {
        var w :| 0 <= w < |pool.workers| && !pool.workers[w].Done?;
        tasks := tasks + arrives(steps);
        ScheduleGrows(c, ok, es, w);
        ghost var e := pool.Step(w, ok);
        es := es + [e];
        steps := steps + 1;
      }
      ScheduleEnds(c, ok, es);
      settled := pool.settled;
    }
  }

  predicate SettledBy(s: State, ok: nat -> bool) {
    forall k :: k in s.settled ==> s.settled[k] == ok(k)
  }

  /** The step of worker `w` when tasks end as `ok` says. */
  function StepOf(s: State, w: nat, ok: nat -> bool): Event
    requires w < |s.workers|
  {
    if s.workers[w].Running? then Settle(w, ok(s.workers[w].index)) else Take(w)
  }

  /** Every event of `es` is the next step of some worker that had not ended. */
  ghost predicate Schedule(c: Config, ok: nat -> bool, es: seq<Event>) {
    es != [] ==>
      var most, e := es[..|es| - 1], es[|es| - 1];
      && Schedule(c, ok, most)
      && exists w: nat :: RunsNext(Exec(c, most), w) && e == StepOf(Exec(c, most), w, ok)
  }

  predicate RunsNext(s: State, w: nat) {
    w < |s.workers| && !s.workers[w].Done?
  }

  /** After any schedule the pool is sound, the settled tasks ended as `ok` says, and each event has
      used up one step. */
  lemma {:induction false} ScheduleUsesUp(c: Config, ok: nat -> bool, es: seq<Event>)
    requires Schedule(c, ok, es)
    ensures Ok(c, Exec(c, es)) && SettledBy(Exec(c, es), ok)
    ensures 0 <= Remaining(c, Exec(c, es)) == 2 * |c.tasks| + WorkerCount(c) - |es|
  {
    AlwaysOk(c, es);
    if es == [] {
      IdleRank(WorkerCount(c));
    } else {
      var most := es[..|es| - 1];
      ScheduleUsesUp(c, ok, most);
      var s := Exec(c, most);
      var w: nat :| RunsNext(s, w) && es[|es| - 1] == StepOf(s, w, ok);
      OneStep(c, s, w, s.workers[w].Running? && ok(s.workers[w].index));
    }
  }

  lemma ScheduleGrows(c: Config, ok: nat -> bool, es: seq<Event>, w: nat)
    requires Schedule(c, ok, es) && RunsNext(Exec(c, es), w)
    ensures var next := es + [StepOf(Exec(c, es), w, ok)];
            && Schedule(c, ok, next) && Exec(c, next) == Apply(c, Exec(c, es), StepOf(Exec(c, es), w, ok))
            && |next| <= 2 * |c.tasks| + WorkerCount(c)
  {
    var e := StepOf(Exec(c, es), w, ok);
    assert (es + [e])[..|es|] == es;
    ScheduleUsesUp(c, ok, es + [e]);
  }

  lemma ScheduleEnds(c: Config, ok: nat -> bool, es: seq<Event>)
    requires Schedule(c, ok, es) && Returned(Exec(c, es)) && (c.limit > 0 || c.tasks == [])
    ensures |es| == 2 * |c.tasks| + WorkerCount(c)
    ensures Exec(c, es).settled.Keys == Indices(|c.tasks|) && SettledBy(Exec(c, es), ok)
  {
    ScheduleUsesUp(c, ok, es);
    ReturnedHasAll(c, Exec(c, es));
    AllDoneRank(Exec(c, es).workers);
  }

  lemma {:induction false} AllDoneRank(ws: seq<Worker>)
    requires forall w :: 0 <= w < |ws| ==> ws[w].Done?
    ensures TotalRank(ws) == 0
  {
    if ws != [] { AllDoneRank(ws[..|ws| - 1]); }
  }

  lemma {:induction false} IdleRank(n: nat)
    ensures TotalRank(seq(n, _ => Idle)) == n
  {
    if n > 0 {
      assert seq(n, _ => Idle)[..n - 1] == seq(n - 1, _ => Idle);
      IdleRank(n - 1);
    }
  }
}
