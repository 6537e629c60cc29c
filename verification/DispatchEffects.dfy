/**
 What one flush of a request, or one pass over its tasks, does when nothing interferes: after any
 history, and whichever of the tasks succeed, it leaves what the bus run by itself leaves.
 */
module DispatchEffects {
  import opened Prelude
  import opened CommitDispatch
  import opened DispatchProtocol

  /** The commands of one task; a drop that the count does not call for does nothing. */
  function TaskRun(es: seq<Event>, i: nat, ok: bool): seq<Event> {
    if ok then es + [Execute(i, true)] + [Remove(i, false)] + [Count(i)] + [Drop(i)] else es + [Execute(i, false)]
  }

  /** The commands from the `k`-th task on. */
  function PassRun(es: seq<Event>, i: nat, n: nat, ok: nat -> bool, k: nat): seq<Event>
    decreases n - k
  {
    if k >= n then es + [Execute(i, true)] else PassRun(TaskRun(es, i, ok(k)), i, n, ok, k + 1)
  }

  lemma Executes(c: Config, es: seq<Event>, i: nat, task: Task, todo: seq<Task>)
    requires i in Exec(c, es).consumers && Exec(c, es).consumers[i] == Working([task] + todo)
    ensures var s := Exec(c, es);
            Exec(c, es + [Execute(i, true)]) == To(s, i, Acking(task, todo)).(succeeded := s.succeeded + multiset{task})
    ensures Exec(c, es + [Execute(i, false)]) == To(Exec(c, es), i, Working(todo))
  {
    assert ([task] + todo)[1..] == todo;
    ExecSnoc(c, es, Execute(i, true));
    ExecSnoc(c, es, Execute(i, false));
  }

  lemma Removes(c: Config, es: seq<Event>, i: nat, task: Task, todo: seq<Task>)
    requires i in Exec(c, es).consumers && Exec(c, es).consumers[i] == Acking(task, todo)
    ensures var s, s' := Exec(c, es), Exec(c, es + [Remove(i, false)]);
            && s'.consumers == s.consumers[i := Counting(todo)] && s'.succeeded == s.succeeded
            && s'.durable == Durable(Without(s.durable.list, task), s.durable.score)
  {
    ExecSnoc(c, es, Remove(i, false));
  }

  lemma Counts(c: Config, es: seq<Event>, i: nat, todo: seq<Task>)
    requires i in Exec(c, es).consumers && Exec(c, es).consumers[i] == Counting(todo)
    ensures var s, s' := Exec(c, es), Exec(c, es + [Count(i)]);
            && s'.consumers == s.consumers[i := if s.durable.list == [] then Dropping(todo) else Working(todo)]
            && s'.succeeded == s.succeeded && s'.durable == s.durable
  {
    ExecSnoc(c, es, Count(i));
  }

  lemma Drops(c: Config, es: seq<Event>, i: nat, todo: seq<Task>)
    requires i in Exec(c, es).consumers
    requires Exec(c, es).consumers[i] == Dropping(todo) || Exec(c, es).consumers[i] == Working(todo)
    ensures var s, s' := Exec(c, es), Exec(c, es + [Drop(i)]);
            && s'.consumers == s.consumers[i := Working(todo)] && s'.succeeded == s.succeeded
            && s'.durable == if s.consumers[i].Dropping? then Durable([], None) else s.durable
  {
    ExecSnoc(c, es, Drop(i));
  }

  /** What consumer `i` makes of one task: a success is acknowledged, a failure stays listed, and the
      pass goes on with the rest. */
  lemma TaskExactly(c: Config, es: seq<Event>, i: nat, task: Task, todo: seq<Task>, ok: bool)
    requires i in Exec(c, es).consumers && Exec(c, es).consumers[i] == Working([task] + todo)
    ensures var s, s' := Exec(c, es), Exec(c, TaskRun(es, i, ok));
            && s'.consumers == s.consumers[i := Working(todo)]
            && s'.durable == (if ok then Acknowledged(s.durable, task) else s.durable)
            && s'.succeeded == s.succeeded + if ok then multiset{task} else multiset{}
  {
    Executes(c, es, i, task, todo);
    if ok {
      var executed := es + [Execute(i, true)];
      Removes(c, executed, i, task, todo);
      var removed := executed + [Remove(i, false)];
      Counts(c, removed, i, todo);
      Drops(c, removed + [Count(i)], i, todo);
    }
  }

  lemma PassEnds(c: Config, es: seq<Event>, i: nat)
    requires i in Exec(c, es).consumers && Exec(c, es).consumers[i] == Working([])
    ensures var s, s' := Exec(c, es), Exec(c, es + [Execute(i, true)]);
            s'.consumers == s.consumers - {i} && s'.durable == s.durable && s'.succeeded == s.succeeded
  {
    ExecSnoc(c, es, Execute(i, true));
  }

  predicate AtTask(s: State, i: nat, tasks: seq<Task>, k: nat)
    requires k <= |tasks|
  {
    i in s.consumers && s.consumers[i] == Working(tasks[k..])
  }

  lemma NextTask(c: Config, es: seq<Event>, i: nat, tasks: seq<Task>, ok: bool, k: nat)
    requires k < |tasks| && AtTask(Exec(c, es), i, tasks, k)
    ensures var s, s' := Exec(c, es), Exec(c, TaskRun(es, i, ok));
            && AtTask(s', i, tasks, k + 1) && s'.consumers - {i} == s.consumers - {i}
            && s'.durable == (if ok then Acknowledged(s.durable, tasks[k]) else s.durable)
            && s'.succeeded == s.succeeded + if ok then multiset{tasks[k]} else multiset{}
  {
    assert tasks[k..] == [tasks[k]] + tasks[k + 1..];
    TaskExactly(c, es, i, tasks[k], tasks[k + 1..], ok);
  }

  /** From its `k`-th task on, a pass left alone leaves the store as the bus's own loop leaves it. */
  lemma {:induction false} PassExactly(c: Config, es: seq<Event>, i: nat, tasks: seq<Task>, ok: nat -> bool, k: nat)
    requires k <= |tasks| && AtTask(Exec(c, es), i, tasks, k)
    ensures var s, s' := Exec(c, es), Exec(c, PassRun(es, i, |tasks|, ok, k));
            s'.consumers == s.consumers - {i} && s'.durable == Flushed(s.durable, tasks, ok, k)
    decreases |tasks| - k
  {
    if k == |tasks| {
      PassEnds(c, es, i);
    } else {
      NextTask(c, es, i, tasks, ok(k), k);
      PassExactly(c, TaskRun(es, i, ok(k)), i, tasks, ok, k + 1);
    }
  }

  /** It executes exactly the tasks that succeed. */
  lemma {:induction false} PassExecutes(
    c: Config, es: seq<Event>, i: nat, tasks: seq<Task>, ok: nat -> bool, k: nat, before: multiset<Task>)
    requires k <= |tasks| && AtTask(Exec(c, es), i, tasks, k)
    requires Exec(c, es).succeeded == before + multiset(Succeeded(tasks, ok, k))
    ensures Exec(c, PassRun(es, i, |tasks|, ok, k)).succeeded == before + multiset(Succeeded(tasks, ok, |tasks|))
    decreases |tasks| - k
  {
    if k == |tasks| {
      PassEnds(c, es, i);
    } else {
      NextTask(c, es, i, tasks, ok(k), k);
      Regroup(before, Succeeded(tasks, ok, k), tasks[k]);
      PassExecutes(c, TaskRun(es, i, ok(k)), i, tasks, ok, k + 1, before);
    }
  }

  lemma Regroup(done: multiset<Task>, before: seq<Task>, task: Task)
    ensures done + multiset(before + [task]) == (done + multiset(before)) + multiset{task}
  {
  }

  /** All the commands of the flush of a request that has `n` tasks listed. */
  function FlushRun(es: seq<Event>, i: nat, n: nat, ok: nat -> bool): seq<Event> {
    var read := es + [Flush(i)] + [Range(i)];
    if n == 0 then read + [Unindex(i)] else PassRun(read, i, n, ok, 0)
  }

  lemma FlushReads(c: Config, es: seq<Event>, i: nat)
    requires var s := Exec(c, es); i !in s.consumers && s.marked && !s.outcome.RolledBack?
    ensures var s, s' := Exec(c, es), Exec(c, es + [Flush(i)] + [Range(i)]);
            && s'.consumers ==
               s.consumers[i := if s.durable.list == [] then Unindexing else Working(s.durable.list)]
            && s'.durable == s.durable && s'.succeeded == s.succeeded
  {
    ExecSnoc(c, es, Flush(i));
    ExecSnoc(c, es + [Flush(i)], Range(i));
  }

  lemma EmptyFlushEnds(c: Config, es: seq<Event>, i: nat)
    requires var s := Exec(c, es); i in s.consumers && s.consumers[i].Unindexing? && s.durable.list == []
    ensures var s, s' := Exec(c, es), Exec(c, es + [Unindex(i)]);
            s'.consumers == s.consumers - {i} && s'.durable == Durable([], None) && s'.succeeded == s.succeeded
  {
    ExecSnoc(c, es, Unindex(i));
  }

  /** After any history, the flush of a marked request, left alone, leaves its list, its place in the
      recovery index and the executed tasks exactly as the bus's own method promises. */
  lemma FlushExactly(c: Config, es: seq<Event>, i: nat, ok: nat -> bool)
    requires var s := Exec(c, es); i !in s.consumers && s.marked && !s.outcome.RolledBack?
    ensures var s, list := Exec(c, es), Exec(c, es).durable.list;
            var s' := Exec(c, FlushRun(es, i, |list|, ok));
            && s'.consumers == s.consumers
            && s'.durable == (if list == [] then Durable([], None) else Flushed(s.durable, list, ok, 0))
            && s'.succeeded == s.succeeded + multiset(Succeeded(list, ok, |list|))
  {
    var s, list := Exec(c, es), Exec(c, es).durable.list;
    var read := es + [Flush(i)] + [Range(i)];
    FlushReads(c, es, i);
    if list == [] {
      EmptyFlushEnds(c, read, i);
      assert s.consumers[i := Unindexing] - {i} == s.consumers;
      assert s.succeeded + multiset(Succeeded(list, ok, 0)) == s.succeeded;
    } else {
      assert list[0..] == list;
      PassExactly(c, read, i, list, ok, 0);
      assert s.succeeded + multiset(Succeeded(list, ok, 0)) == s.succeeded;
      PassExecutes(c, read, i, list, ok, 0, s.succeeded);
      assert s.consumers[i := Working(list)] - {i} == s.consumers;
    }
  }

  /** In every run, a removal that takes effect although it throws takes the entry out, and the pass goes
      on without counting. */
  lemma ThrowingRemovalGoesOn(c: Config, es: seq<Event>, i: nat)
    requires i in Exec(c, es).consumers && Exec(c, es).consumers[i].Acking?
    ensures var s, s' := Exec(c, es), Exec(c, es + [Remove(i, true)]);
            && s'.consumers == s.consumers[i := Working(s.consumers[i].todo)]
            && s'.durable == s.durable.(list := Without(s.durable.list, s.consumers[i].task))
  {
    ExecSnoc(c, es, Remove(i, true));
  }

  /** A request whose marker is cleared is not flushed; its tasks stay for the sweeper. */
  lemma ClearedMarkerIsNotFlushed(c: Config, es: seq<Event>, i: nat)
    ensures var s := Exec(c, es);
            && Exec(c, es + [ClearMarker]) == s.(marked := false)
            && Exec(c, es + [ClearMarker] + [Flush(i)]) == s.(marked := false)
  {
    ExecSnoc(c, es, ClearMarker);
    ExecSnoc(c, es + [ClearMarker], Flush(i));
  }

  /** In every run, a command that throws after its task executed leaves the task listed, and the pass
      goes on with the next one. */
  lemma ThrowGoesOn(c: Config, es: seq<Event>, i: nat)
    requires var s := Exec(c, es);
             i in s.consumers && (s.consumers[i].Acking? || s.consumers[i].Counting? || s.consumers[i].Dropping?)
    ensures var s, s' := Exec(c, es), Exec(c, es + [Throw(i)]);
            s'.consumers == s.consumers[i := Working(s.consumers[i].todo)] && s'.durable == s.durable
  {
    ExecSnoc(c, es, Throw(i));
  }

  /** A rolled-back request whose purge goes through has nothing left to flush or to recover. */
  lemma RollbackDiscards(c: Config, es: seq<Event>, i: nat)
    requires Exec(c, es).outcome.Open? && i !in Exec(c, es).consumers
    ensures var s, s' := Exec(c, es), Exec(c, es + [End(false)] + [Purge]);
            && s'.durable == Durable([], None) && !s'.marked && s'.succeeded == s.succeeded
            && Exec(c, es + [End(false)] + [Purge] + [Flush(i)] + [Sweep(i)]) == s'
  {
    ExecSnoc(c, es, End(false));
    ExecSnoc(c, es + [End(false)], Purge);
    ExecSnoc(c, es + [End(false)] + [Purge], Flush(i));
    ExecSnoc(c, es + [End(false)] + [Purge] + [Flush(i)], Sweep(i));
  }
}
