/**
 Post-commit dispatch (`event-bus.ts`, `commit-dispatch.store.ts`,
 `commit-dispatch-recovery.processor.ts`): the tasks of a request wait in a Redis list until the
 flush of that request, or the recovery sweeper, has executed and acknowledged them. This module
 holds the store's commands and the bus run by itself; `DispatchProtocol` interleaves them.
 */
module CommitDispatch {
  import opened Prelude

  /** A serialized task: the raw list entry. */
  type Task = string

  /** Age in milliseconds at which the sweeper takes a request. */
  const RECOVERY_AFTER: nat := 2 * 60_000

  // ----- The store -----

  /** One request's pending list, and its score in the recovery index. */
  datatype Durable = Durable(list: seq<Task>, score: Option<nat>)

  /** `RPUSH` and `ZADD` in one `MULTI`. */
  function Append(d: Durable, task: Task, now: nat): Durable {
    Durable(d.list + [task], Some(now))
  }

  /** `LREM key 1 raw`: the first equal entry goes. */
  function Without(list: seq<Task>, task: Task): seq<Task> {
    if list == [] then []
    else if list[0] == task then list[1..]
    else [list[0]] + Without(list[1..], task)
  }

  lemma {:induction false} WithoutRemovesOne(list: seq<Task>, task: Task)
    ensures multiset(Without(list, task)) == multiset(list) - multiset{task}
    ensures task !in list ==> Without(list, task) == list
  {
    if list != [] {
      HeadAndTail(list);
      if list[0] != task {
        var rest := Without(list[1..], task);
        WithoutRemovesOne(list[1..], task);
        HeadAndTail([list[0]] + rest);
        assert ([list[0]] + rest)[1..] == rest;
        PassOver(multiset(list[1..]), list[0], task);
      }
    }
  }

  /** The entry that goes is the first equal one; the others keep their order. */
  lemma {:induction false} WithoutRemovesFirst(list: seq<Task>, task: Task) returns (k: nat)
    requires task in list
    ensures k < |list| && list[k] == task && task !in list[..k]
    ensures Without(list, task) == list[..k] + list[k + 1..]
  {
    if list[0] == task {
      k := 0;
    } else {
      var j := WithoutRemovesFirst(list[1..], task);
      k := j + 1;
      assert list[..k] == [list[0]] + list[1..][..j];
    }
  }

  lemma PassOver(m: multiset<Task>, x: Task, y: Task)
    requires x != y
    ensures multiset{x} + (m - multiset{y}) == (multiset{x} + m) - multiset{y}
  {
  }

  lemma HeadAndTail(list: seq<Task>)
    requires list != []
    ensures multiset(list) == multiset{list[0]} + multiset(list[1..])
  {
    assert list == [list[0]] + list[1..];
  }

  /** `DEL` and `ZREM` in one `MULTI`. */
  function Dropped(): Durable {
    Durable([], None)
  }

  /** `acknowledgeCommitDispatchTask`, uninterrupted. */
  function Acknowledged(d: Durable, task: Task): Durable {
    var list := Without(d.list, task);
    if list == [] then Dropped() else d.(list := list)
  }

  /** What a pass over `tasks` leaves, when the `i`-th execution from `i` on succeeds iff `ok(i)`. */
  function Flushed(d: Durable, tasks: seq<Task>, ok: nat -> bool, i: nat): Durable
    requires i <= |tasks|
    decreases |tasks| - i
  {
    if i == |tasks| then d
    else Flushed(if ok(i) then Acknowledged(d, tasks[i]) else d, tasks, ok, i + 1)
  }

  /** The tasks among the first `n` whose execution succeeded. */
  function Succeeded(tasks: seq<Task>, ok: nat -> bool, n: nat): seq<Task>
    requires n <= |tasks|
  {
    if n == 0 then [] else Succeeded(tasks, ok, n - 1) + if ok(n - 1) then [tasks[n - 1]] else []
  }

  lemma {:induction false} SucceededAll(tasks: seq<Task>, ok: nat -> bool, n: nat)
    requires n <= |tasks|
    ensures |Succeeded(tasks, ok, n)| <= n
    ensures |Succeeded(tasks, ok, n)| == n <==> forall k :: 0 <= k < n ==> ok(k)
  {
    if n > 0 { SucceededAll(tasks, ok, n - 1); }
  }

  /** Execution follows the list: the `k`-th task, if it succeeds, comes right after those before it. */
  lemma {:induction false} SucceededInOrder(tasks: seq<Task>, ok: nat -> bool, n: nat, k: nat)
    requires k < n <= |tasks|
    ensures |Succeeded(tasks, ok, k)| <= |Succeeded(tasks, ok, n)|
    ensures ok(k) ==>
      |Succeeded(tasks, ok, k)| < |Succeeded(tasks, ok, n)|
      && Succeeded(tasks, ok, n)[|Succeeded(tasks, ok, k)|] == tasks[k]
    decreases n
  {
    if k < n - 1 { SucceededInOrder(tasks, ok, n - 1, k); }
  }

  lemma {:induction false} AllSucceed(tasks: seq<Task>, ok: nat -> bool, n: nat)
    requires n <= |tasks| && forall k :: 0 <= k < n ==> ok(k)
    ensures Succeeded(tasks, ok, n) == tasks[..n]
  {
    if n > 0 { AllSucceed(tasks, ok, n - 1); }
  }

  /** A request's list after its first `n` tasks were scheduled, the `i`-th at `times(i)`. */
  function Scheduled(tasks: seq<Task>, times: nat -> nat, n: nat): Durable
    requires n <= |tasks|
  {
    if n == 0 then Dropped() else Append(Scheduled(tasks, times, n - 1), tasks[n - 1], times(n - 1))
  }

  lemma {:induction false} ScheduledKeepsOrder(tasks: seq<Task>, times: nat -> nat, n: nat)
    requires n <= |tasks|
    ensures Scheduled(tasks, times, n).list == tasks[..n]
    ensures Scheduled(tasks, times, n).score == if n == 0 then None else Some(times(n - 1))
  {
    if n > 0 { ScheduledKeepsOrder(tasks, times, n - 1); }
  }

  /** Tasks scheduled in an order are executed by the flush in that order, and nothing is left when
      all of them succeed. */
  lemma FlushExecutesInOrder(tasks: seq<Task>, times: nat -> nat, ok: nat -> bool)
    requires tasks != [] && forall k :: 0 <= k < |tasks| ==> ok(k)
    ensures var d := Scheduled(tasks, times, |tasks|);
            && d.list == tasks && Succeeded(d.list, ok, |d.list|) == tasks
            && Flushed(d, d.list, ok, 0) == Durable([], None)
  {
    var d := Scheduled(tasks, times, |tasks|);
    ScheduledKeepsOrder(tasks, times, |tasks|);
    assert tasks[..|tasks|] == tasks;
    AllSucceed(tasks, ok, |tasks|);
    FlushConserves(d, ok);
  }

  /** Queue, markers and the store as one process sees them. */
  class EventBus {
    var markers: set<string>
    var store: map<string, Durable>
    var queue: seq<Task>
    var executed: seq<Task>

    constructor ()
      ensures markers == {} && store == map[] && queue == [] && executed == []
    {
      markers, store, queue, executed := {}, map[], [], [];
    }

    function Pending(requestId: string): Durable
      reads this
    {
      if requestId in store then store[requestId] else Dropped()
    }

    /** `scheduleCommitDispatch`. `stored` says whether the append took effect, `threw` whether its
        reply was an error; an append may take effect and still throw. */
    method Schedule(task: Task, requestId: Option<string>, now: nat, stored: bool, threw: bool)
      requires stored || threw
      modifies this
      ensures executed == old(executed)
      ensures forall id :: Some(id) != requestId ==> Pending(id) == old(Pending(id))
      ensures requestId.Some? && stored ==> Pending(requestId.value) == Append(old(Pending(requestId.value)), task, now)
      ensures requestId.Some? && stored ==>
        && Pending(requestId.value).list == old(Pending(requestId.value)).list + [task]
        && Pending(requestId.value).score == Some(now)
      ensures requestId.Some? && !stored ==> Pending(requestId.value) == old(Pending(requestId.value))
      ensures requestId.Some? && !threw ==> queue == old(queue) && markers == old(markers) + {requestId.value}
      ensures requestId.None? || threw ==> queue == old(queue) + [task] && markers == old(markers)
    {
      if requestId.Some? {
        if stored { store := store[requestId.value := Append(Pending(requestId.value), task, now)]; }
        if !threw {
          markers := markers + {requestId.value};
          return;
        }
      }
      queue := queue + [task];
    }

    method Acknowledge(requestId: string, task: Task)
      modifies this`store
      ensures Pending(requestId) == Acknowledged(old(Pending(requestId)), task)
      ensures Pending(requestId).list == Without(old(Pending(requestId)).list, task)
      ensures Pending(requestId).score == if Pending(requestId).list == [] then None else old(Pending(requestId)).score
      ensures forall id :: id != requestId ==> Pending(id) == old(Pending(id))
    {
      var remaining := Without(Pending(requestId).list, task);
      store := store[requestId := Pending(requestId).(list := remaining)];
      if |remaining| == 0 { store := store - {requestId}; }
    }

    /** The durable half of `flushOnCommit`, uninterrupted: the `i`-th task executes successfully iff
        `ok(i)`; a failed one is logged and stays listed. When the list cannot be read (`!read`) the
        marker is gone all the same, and the sweeper is what is left. */
    method FlushDurable(requestId: string, read: bool, ok: nat -> bool)
      modifies this
      ensures markers == old(markers) - {requestId} && queue == old(queue)
      ensures forall id :: id != requestId ==> Pending(id) == old(Pending(id))
      ensures requestId !in old(markers) || !read ==>
        Pending(requestId) == old(Pending(requestId)) && executed == old(executed)
      ensures requestId in old(markers) && read && old(Pending(requestId)).list != [] ==>
        var tasks := old(Pending(requestId)).list;
        && Pending(requestId) == Flushed(old(Pending(requestId)), tasks, ok, 0)
        && executed == old(executed) + Succeeded(tasks, ok, |tasks|)
      ensures requestId in old(markers) && read && old(Pending(requestId)).list == [] ==>
        Pending(requestId) == Durable([], None) && executed == old(executed)
    {
      if requestId !in markers { return; }
      markers := markers - {requestId};
      if !read { return; }
      var tasks := Pending(requestId).list;
      if |tasks| == 0 {
        store := store - {requestId};
        return;
      }
      var i := 0;
      ghost var before := Pending(requestId);
      while i < |tasks|
        invariant 0 <= i <= |tasks|
        invariant markers == old(markers) - {requestId} && queue == old(queue)
        invariant forall id :: id != requestId ==> Pending(id) == old(Pending(id))
        invariant Flushed(before, tasks, ok, 0) == Flushed(Pending(requestId), tasks, ok, i)
        invariant executed == old(executed) + Succeeded(tasks, ok, i)
      {
        if ok(i) {
          executed := executed + [tasks[i]];
          Acknowledge(requestId, tasks[i]);
        }
        i := i + 1;
      }
    }

    /** `clearCommitDispatchMarker`: the durable tasks stay for the sweeper. */
    method ClearMarker(requestId: string)
      modifies this`markers
      ensures markers == old(markers) - {requestId}
    {
      markers := markers - {requestId};
    }

    /** `discardCommitDispatchOnRollback`; a failed purge is swallowed. */
    method DiscardOnRollback(requestId: string, purged: bool)
      modifies this
      ensures markers == old(markers) - {requestId} && queue == old(queue) && executed == old(executed)
      ensures Pending(requestId) == if purged then Durable([], None) else old(Pending(requestId))
      ensures forall id :: id != requestId ==> Pending(id) == old(Pending(id))
    {
      markers := markers - {requestId};
      if purged { store := store - {requestId}; }
    }
  }

  /** An uninterrupted flush loses nothing: what was listed is what is still listed and what
      succeeded; the request leaves the recovery index exactly when every task succeeded. */
  lemma FlushConserves(d: Durable, ok: nat -> bool)
    requires d.list != [] && d.score.Some?
    ensures var after := Flushed(d, d.list, ok, 0);
            && multiset(d.list) == multiset(after.list) + multiset(Succeeded(d.list, ok, |d.list|))
            && (after.score.None? <==> forall k :: 0 <= k < |d.list| ==> ok(k))
            && (after.list == [] <==> after.score.None?)
  {
    var n := |d.list|;
    assert d.list[0..] == d.list;
    FlushSplit(d.list, d, ok, 0);
    SucceededAll(d.list, ok, n);
    var after, done := Flushed(d, d.list, ok, 0), Succeeded(d.list, ok, n);
    assert |multiset(d.list)| == |multiset(after.list)| + |multiset(done)|;
  }

  /** Before the `i`-th task of a pass: what is still to be tried is still listed. */
  predicate Halfway(tasks: seq<Task>, d: Durable, ok: nat -> bool, i: nat) {
    && i <= |tasks|
    && multiset(tasks) == multiset(d.list) + multiset(Succeeded(tasks, ok, i))
    && multiset(tasks[i..]) <= multiset(d.list)
    && (d.list == [] <==> d.score.None?)
  }

  lemma {:induction false} FlushSplit(tasks: seq<Task>, d: Durable, ok: nat -> bool, i: nat)
    requires Halfway(tasks, d, ok, i)
    ensures Halfway(tasks, Flushed(d, tasks, ok, i), ok, |tasks|)
    decreases |tasks| - i
  {
    if i < |tasks| {
      HalfwayStep(tasks, d, ok, i);
      FlushSplit(tasks, if ok(i) then Acknowledged(d, tasks[i]) else d, ok, i + 1);
    }
  }

  lemma HalfwayStep(tasks: seq<Task>, d: Durable, ok: nat -> bool, i: nat)
    requires i < |tasks| && Halfway(tasks, d, ok, i)
    ensures Halfway(tasks, if ok(i) then Acknowledged(d, tasks[i]) else d, ok, i + 1)
  {
    HeadAndTail(tasks[i..]);
    assert tasks[i..][1..] == tasks[i + 1..];
    if ok(i) { AcknowledgeSplit(tasks, d, ok, i); }
  }

  lemma AcknowledgeSplit(tasks: seq<Task>, d: Durable, ok: nat -> bool, i: nat)
    requires i < |tasks| && ok(i)
    requires multiset(tasks) == multiset(d.list) + multiset(Succeeded(tasks, ok, i))
    requires multiset{tasks[i]} + multiset(tasks[i + 1..]) <= multiset(d.list)
    ensures var d' := Acknowledged(d, tasks[i]);
            && multiset(tasks) == multiset(d'.list) + multiset(Succeeded(tasks, ok, i + 1))
            && multiset(tasks[i + 1..]) <= multiset(d'.list)
  {
    var task, done := tasks[i], Succeeded(tasks, ok, i);
    WithoutRemovesOne(d.list, task);
    assert multiset(done + [task]) == multiset(done) + multiset{task};
    MoveOne(multiset(d.list), multiset(done), task, multiset(tasks[i + 1..]));
  }

  lemma MoveOne(listed: multiset<Task>, done: multiset<Task>, task: Task, rest: multiset<Task>)
    requires multiset{task} + rest <= listed
    ensures (listed - multiset{task}) + (done + multiset{task}) == listed + done
    ensures rest <= listed - multiset{task}
  {
    assert (multiset{task} + rest)[task] <= listed[task];
  }
}
