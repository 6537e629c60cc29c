/**
 `withRedisLock` of `redis-lock.util.ts`: a `SET NX EX` lock released by a nonce-guarded
 compare-and-delete, first as the two commands and the acquire loop, then as a timed protocol run
 by any number of clients that may crash at any step.
 */
module RedisLock {
  import opened Prelude

  datatype Hold = Hold(nonce: nat, expiresAt: nat)

  predicate Held(key: Option<Hold>, now: nat) {
    key.Some? && now < key.value.expiresAt
  }

  /** `SET key nonce EX ttl NX`. */
  function AcquireKey(key: Option<Hold>, now: nat, nonce: nat, ttl: nat): Option<Hold> {
    if Held(key, now) then key else Some(Hold(nonce, now + ttl))
  }

  /** The release script: delete the key only while it still stores our nonce. */
  function ReleaseKey(key: Option<Hold>, now: nat, nonce: nat): Option<Hold> {
    if Held(key, now) && key.value.nonce == nonce then None else key
  }

  class Server {
    var key: Option<Hold>
    var now: nat

    constructor ()
      ensures key == None && now == 0
    {
      key, now := None, 0;
    }

    method SetNx(nonce: nat, ttl: nat) returns (ok: bool)
      modifies this`key
      ensures ok <==> old(key).None? || old(key).value.expiresAt <= now
      ensures key == if ok then Some(Hold(nonce, now + ttl)) else old(key)
      ensures key == AcquireKey(old(key), now, nonce, ttl)
    {
      ok := !(key.Some? && now < key.value.expiresAt);
      if ok { key := Some(Hold(nonce, now + ttl)); }
    }

    method ReleaseIfHeld(nonce: nat) returns (deleted: bool)
      modifies this`key
      ensures deleted <==> old(key).Some? && now < old(key).value.expiresAt && old(key).value.nonce == nonce
      ensures key == if deleted then None else old(key)
      ensures key == ReleaseKey(old(key), now, nonce)
    {
      deleted := false;
      if key.Some? && now < key.value.expiresAt && key.value.nonce == nonce {
        key := None;
        deleted := true;
      }
    }
  }

  /**
   The acquire loop. `free(i)` says whether the `i`-th `SET NX` finds the key free, and `clock(i)`
   is the time read after the `i`-th sleep, which lasts at least `poll`.
   */
  method AcquireLoop(wait: int, poll: nat, start: nat, clock: nat -> nat, free: nat -> bool)
    returns (acquired: bool, attempts: nat)
    requires 1 <= poll
    requires forall i: nat :: start + (i + 1) * poll <= clock(i)
    ensures 1 <= attempts
    ensures acquired <==> free(attempts - 1)
    ensures forall i: nat :: i < attempts - 1 ==> !free(i) && clock(i) < start + wait
    ensures !acquired && wait > 0 ==> start + wait <= clock(attempts - 1)
    ensures attempts > 1 ==> (attempts - 1) * poll < wait
  {
    var deadline := start + wait;
    acquired, attempts := free(0), 1;
    if acquired || wait <= 0 { return; }
    while clock(attempts - 1) < deadline
      invariant 1 <= attempts && !acquired && !free(attempts - 1)
      invariant forall i: nat :: i < attempts - 1 ==> !free(i) && clock(i) < deadline
      invariant attempts > 1 ==> (attempts - 1) * poll < wait
      decreases wait - attempts * poll
    {
      assert start + attempts * poll <= clock(attempts - 1);
      Distribute(attempts, poll);
      acquired := free(attempts);
      attempts := attempts + 1;
      if acquired { return; }
    }
  }

  lemma Distribute(n: nat, poll: nat)
    ensures (n + 1) * poll == n * poll + poll
  {
  }

  // ----- The protocol -----

  /** `maxRun` bounds how long after its acquisition a critical section may still run; `None` puts
      no bound on it. */
  datatype Config = Config(ttl: nat, maxRun: Option<nat>)

  datatype Client = Waiting(nonce: nat) | Running(nonce: nat, acquiredAt: nat) | Finished(nonce: nat, acquiredAt: nat)

  /** `nextNonce` supplies the unique nonces of `randomUUID`. */
  datatype State = State(now: nat, key: Option<Hold>, clients: map<nat, Client>, nextNonce: nat)

  datatype Event =
    | Tick(elapsed: nat)
    | Begin(client: nat)
    | TryAcquire(client: nat)
    | GiveUp(client: nat)
    | Finish(client: nat)
    | Release(client: nat, redisOk: bool)
    | Crash(client: nat)

  function Init(): State { State(0, None, map[], 0) }

  predicate InTime(c: Config, s: State, now: nat) {
    c.maxRun.Some? ==>
      forall i :: i in s.clients && s.clients[i].Running? ==> now <= s.clients[i].acquiredAt + c.maxRun.value
  }

  function Apply(c: Config, s: State, e: Event): State {
    match e
    case Tick(d) => if InTime(c, s, s.now + d) then s.(now := s.now + d) else s
    case Begin(i) =>
      if i in s.clients then s
      else s.(clients := s.clients[i := Waiting(s.nextNonce)], nextNonce := s.nextNonce + 1)
    case TryAcquire(i) =>
      if i !in s.clients || !s.clients[i].Waiting? || Held(s.key, s.now) then s
      else s.(key := AcquireKey(s.key, s.now, s.clients[i].nonce, c.ttl),
              clients := s.clients[i := Running(s.clients[i].nonce, s.now)])
    case GiveUp(i) =>
      if i in s.clients && s.clients[i].Waiting? then s.(clients := s.clients - {i}) else s
    case Finish(i) =>
      if i in s.clients && s.clients[i].Running?
      then s.(clients := s.clients[i := Finished(s.clients[i].nonce, s.clients[i].acquiredAt)])
      else s
    case Release(i, ok) =>
      if i !in s.clients || !s.clients[i].Finished? then s
      else s.(key := if ok then ReleaseKey(s.key, s.now, s.clients[i].nonce) else s.key,
              clients := s.clients - {i})
    case Crash(i) => s.(clients := s.clients - {i})
  }

  function Exec(c: Config, es: seq<Event>): State {
    if es == [] then Init() else Apply(c, Exec(c, es[..|es| - 1]), es[|es| - 1])
  }

  lemma ExecSnoc(c: Config, es: seq<Event>, e: Event)
    ensures Exec(c, es + [e]) == Apply(c, Exec(c, es), e)
  {
    assert (es + [e])[..|es|] == es;
  }

  /** At most one client is inside its critical section. */
  predicate Exclusive(s: State) {
    forall i, j :: i in s.clients && j in s.clients && s.clients[i].Running? && s.clients[j].Running? ==> i == j
  }

  // ----- Invariants -----

  predicate NoncesUnique(c: Config, s: State) {
    && (forall i :: i in s.clients ==> s.clients[i].nonce < s.nextNonce)
    && (forall i, j :: i in s.clients && j in s.clients && s.clients[i].nonce == s.clients[j].nonce ==> i == j)
    && (s.key.Some? ==> s.key.value.nonce < s.nextNonce && s.key.value.expiresAt <= s.now + c.ttl)
    && (forall i :: i in s.clients && s.clients[i].Waiting? ==> s.key.None? || s.key.value.nonce != s.clients[i].nonce)
  }

  predicate RunnersHold(c: Config, s: State) {
    forall i :: i in s.clients && s.clients[i].Running? ==>
      && s.key == Some(Hold(s.clients[i].nonce, s.clients[i].acquiredAt + c.ttl))
      && c.maxRun.Some? && s.now <= s.clients[i].acquiredAt + c.maxRun.value
  }

  lemma NoncesStep(c: Config, s: State, e: Event)
    requires NoncesUnique(c, s)
    ensures NoncesUnique(c, Apply(c, s, e))
  {
  }

  lemma {:induction false} NoncesAlwaysUnique(c: Config, es: seq<Event>)
    ensures NoncesUnique(c, Exec(c, es))
  {
    if es != [] {
      NoncesAlwaysUnique(c, es[..|es| - 1]);
      NoncesStep(c, Exec(c, es[..|es| - 1]), es[|es| - 1]);
    }
  }

  /** A section that fits its TTL keeps its key: nobody else can acquire or release it meanwhile. */
  lemma RunnersStep(c: Config, s: State, e: Event)
    requires c.maxRun.Some? && c.maxRun.value < c.ttl && NoncesUnique(c, s) && RunnersHold(c, s)
    ensures RunnersHold(c, Apply(c, s, e))
  {
  }

  lemma {:induction false} RunnersAlwaysHold(c: Config, es: seq<Event>)
    requires c.maxRun.Some? && c.maxRun.value < c.ttl
    ensures RunnersHold(c, Exec(c, es))
  {
    if es != [] {
      RunnersAlwaysHold(c, es[..|es| - 1]);
      NoncesAlwaysUnique(c, es[..|es| - 1]);
      RunnersStep(c, Exec(c, es[..|es| - 1]), es[|es| - 1]);
    }
  }

  // ----- Main theorems -----

  /** A release leaves every other client's lock in place, even after its own TTL lapsed. */
  lemma ReleaseNeverRemovesAnother(c: Config, es: seq<Event>, releaser: nat, other: nat, redisOk: bool)
    requires other in Exec(c, es).clients && releaser != other
    requires Exec(c, es).key.Some? && Exec(c, es).key.value.nonce == Exec(c, es).clients[other].nonce
    ensures Exec(c, es + [Release(releaser, redisOk)]).key == Exec(c, es).key
  {
    NoncesAlwaysUnique(c, es);
    ExecSnoc(c, es, Release(releaser, redisOk));
  }

  /** Within its TTL a client that has acquired the lock owns the key, and a key with its nonce lapses
      exactly then. */
  predicate OwnersHold(c: Config, s: State) {
    forall i :: i in s.clients && !s.clients[i].Waiting? ==>
      var client := s.clients[i];
      && (s.now < client.acquiredAt + c.ttl ==> s.key == Some(Hold(client.nonce, client.acquiredAt + c.ttl)))
      && (s.key.Some? && s.key.value.nonce == client.nonce ==> s.key.value.expiresAt == client.acquiredAt + c.ttl)
  }

  lemma OwnersStep(c: Config, s: State, e: Event)
    requires NoncesUnique(c, s) && OwnersHold(c, s)
    ensures OwnersHold(c, Apply(c, s, e))
  {
  }

  lemma {:induction false} OwnersAlwaysHold(c: Config, es: seq<Event>)
    ensures OwnersHold(c, Exec(c, es))
  {
    if es != [] {
      OwnersAlwaysHold(c, es[..|es| - 1]);
      NoncesAlwaysUnique(c, es[..|es| - 1]);
      OwnersStep(c, Exec(c, es[..|es| - 1]), es[|es| - 1]);
    }
  }

  /** In every run, a release that reaches Redis frees the key exactly when it comes within the TTL of
      its client's acquisition. */
  lemma ReleaseFreesExactlyWithinTtl(c: Config, es: seq<Event>, i: nat)
    requires i in Exec(c, es).clients && Exec(c, es).clients[i].Finished?
    ensures var s, s' := Exec(c, es), Exec(c, es + [Release(i, true)]);
            && (s.now < s.clients[i].acquiredAt + c.ttl ==> s.key.Some? && s'.key == None)
            && (s.clients[i].acquiredAt + c.ttl <= s.now ==> s'.key == s.key)
            && i !in s'.clients && s'.now == s.now
  {
    OwnersAlwaysHold(c, es);
    ExecSnoc(c, es, Release(i, true));
  }

  /** After such a release, at the same instant, any waiter acquires the lock. */
  lemma ReleasedLockIsAcquirable(c: Config, es: seq<Event>, i: nat, waiter: nat)
    requires var s := Exec(c, es);
             && i in s.clients && s.clients[i].Finished? && s.now < s.clients[i].acquiredAt + c.ttl
             && waiter in s.clients && s.clients[waiter].Waiting?
    ensures var s, s' := Exec(c, es), Exec(c, es + [Release(i, true)] + [TryAcquire(waiter)]);
            && waiter in s'.clients && s'.clients[waiter] == Running(s.clients[waiter].nonce, s.now)
            && s'.key == Some(Hold(s.clients[waiter].nonce, s.now + c.ttl))
  {
    ReleaseFreesExactlyWithinTtl(c, es, i);
    ExecSnoc(c, es, Release(i, true));
    ExecSnoc(c, es + [Release(i, true)], TryAcquire(waiter));
  }

  /** A release that fails in Redis, or a client that gives up waiting or crashes, leaves the key as it
      is: only its TTL frees it. */
  lemma LeavingKeepsKey(c: Config, es: seq<Event>, i: nat)
    requires i in Exec(c, es).clients
    ensures var s := Exec(c, es); var gone := s.(clients := s.clients - {i});
            && Exec(c, es + [Crash(i)]) == gone
            && (s.clients[i].Finished? ==> Exec(c, es + [Release(i, false)]) == gone)
            && (s.clients[i].Waiting? ==> Exec(c, es + [GiveUp(i)]) == gone)
  {
    ExecSnoc(c, es, Crash(i));
    ExecSnoc(c, es, Release(i, false));
    ExecSnoc(c, es, GiveUp(i));
  }

  /** Two holders overlap once a section outlives its TTL. */
  function OverlapRun(c: Config): seq<Event> {
    [Begin(0), TryAcquire(0), Tick(c.ttl), Begin(1), TryAcquire(1)]
  }

  lemma OverlapRunOverlaps(c: Config)
    requires c.maxRun.None? || c.ttl <= c.maxRun.value
    ensures !Exclusive(Exec(c, OverlapRun(c)))
  {
    var es := OverlapRun(c);
    assert es[..0] == [];
    ExecSnoc(c, es[..0], es[0]); assert es[..1] == es[..0] + [es[0]];
    ExecSnoc(c, es[..1], es[1]); assert es[..2] == es[..1] + [es[1]];
    ExecSnoc(c, es[..2], es[2]); assert es[..3] == es[..2] + [es[2]];
    ExecSnoc(c, es[..3], es[3]); assert es[..4] == es[..3] + [es[3]];
    ExecSnoc(c, es[..4], es[4]); assert es == es[..4] + [es[4]];
    var s := Exec(c, es);
    assert 0 in s.clients && 1 in s.clients;
  }

  /** No two critical sections overlap, in every run, exactly when every section ends before its TTL. */
  lemma ExclusionExactlyWhenSectionsFitTtl(c: Config)
    ensures (forall es :: Exclusive(Exec(c, es))) <==> c.maxRun.Some? && c.maxRun.value < c.ttl
  {
    if c.maxRun.Some? && c.maxRun.value < c.ttl {
      forall es ensures Exclusive(Exec(c, es)) {
        RunnersAlwaysHold(c, es);
        NoncesAlwaysUnique(c, es);
      }
    } else {
      OverlapRunOverlaps(c);
    }
  }

  /** However its holder ended, and even if it is stalled and still running, a lock is acquirable once
      a TTL can pass. */
  lemma LapsedLockIsAcquirable(c: Config, es: seq<Event>, waiter: nat)
    requires waiter in Exec(c, es).clients && Exec(c, es).clients[waiter].Waiting?
    requires InTime(c, Exec(c, es), Exec(c, es).now + c.ttl)
    ensures var s := Exec(c, es + [Tick(c.ttl)] + [TryAcquire(waiter)]);
            waiter in s.clients && s.clients[waiter].Running?
  {
    NoncesAlwaysUnique(c, es);
    ExecSnoc(c, es, Tick(c.ttl));
    ExecSnoc(c, es + [Tick(c.ttl)], TryAcquire(waiter));
  }
}
