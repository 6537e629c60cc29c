/**
 The tombstoned read-through cache of `redis-tombstone-cache.util.ts`, as one timed protocol.

 Readers GET the key, and on a miss read the database and try `SET NX`; writers commit and then
 overwrite the key with a short-lived tombstone. Every step below is one Redis command or one
 database transaction, so a sequence of events is an arbitrary interleaving of any number of
 readers and writers. An event whose guard is false leaves the state alone.
 */
module TombstoneCache {
  import opened Prelude

  const TOMBSTONE: string := "__invalidated__"

  /** Where a stored text came from. A population remembers which committed version it copies and
      when that version was read; Redis stores only the text and the expiry. */
  datatype Origin = Invalidation | Population(version: nat, readAt: nat)

  datatype Entry = Entry(text: string, expiresAt: nat, origin: Origin)

  // ----- The three utilities, as functions of the key they touch -----

  predicate Live(key: Option<Entry>, now: nat) {
    key.Some? && now < key.value.expiresAt
  }

  /** `readTombstonedCacheEntry`: an absent, empty or tombstone text is a miss. */
  function ReadKey(key: Option<Entry>, now: nat): Option<string> {
    if !Live(key, now) || key.value.text == "" || key.value.text == TOMBSTONE then None
    else Some(key.value.text)
  }

  /** `populateTombstonedCacheEntry`: `SET key value EX ttl NX`, and nothing for `ttl <= 0`. */
  function PopulateKey(key: Option<Entry>, now: nat, text: string, ttl: int, origin: Origin): Option<Entry> {
    if ttl <= 0 || Live(key, now) then key else Some(Entry(text, now + ttl, origin))
  }

  /** `invalidateTombstonedCacheEntry`: an unconditional `SET key <tombstone> EX ttl`. */
  function InvalidateKey(now: nat, ttl: nat): Option<Entry> {
    Some(Entry(TOMBSTONE, now + ttl, Invalidation))
  }

  /** The shared Redis key and the clock its expiry is measured against. */
  class CacheKey {
    var key: Option<Entry>
    var now: nat

    constructor ()
      ensures key == None && now == 0
    {
      key, now := None, 0;
    }

    method Read(redisOk: bool) returns (hit: Option<string>)
      ensures hit == if redisOk then ReadKey(key, now) else None
      ensures hit.Some? <==>
        && redisOk && key.Some? && now < key.value.expiresAt
        && key.value.text != "" && key.value.text != "__invalidated__"
      ensures hit.Some? ==> hit.value == key.value.text
    {
      hit := None;
      if redisOk && key.Some? && now < key.value.expiresAt {
        var cached := key.value.text;
        if |cached| == 0 { return; }
        if cached == TOMBSTONE { return; }
        hit := Some(cached);
      }
    }

    method Populate(text: string, ttl: int, origin: Origin, redisOk: bool)
      modifies this`key
      ensures key == if redisOk then PopulateKey(old(key), now, text, ttl, origin) else old(key)
      ensures key ==
              if redisOk && ttl > 0 && (old(key).None? || old(key).value.expiresAt <= now)
              then Some(Entry(text, now + ttl, origin)) else old(key)
    {
      if ttl <= 0 { return; }
      if redisOk {
        if !(key.Some? && now < key.value.expiresAt) {
          key := Some(Entry(text, now + ttl, origin));
        }
      }
    }

    method Invalidate(ttl: nat, redisOk: bool)
      modifies this`key
      ensures key == if redisOk then InvalidateKey(now, ttl) else old(key)
      ensures redisOk ==> key.Some? && key.value.text == "__invalidated__" && key.value.expiresAt == now + ttl
    {
      if redisOk {
        key := Some(Entry(TOMBSTONE, now + ttl, Invalidation));
      }
    }
  }

  // ----- The protocol -----

  /** `delay`: how long after its database read a reader may still populate. `tombstoneTtl`: the
      least TTL any invalidation passes. `populateTtl`: the greatest TTL any population passes. */
  datatype Config = Config(delay: nat, tombstoneTtl: nat, populateTtl: nat)

  datatype Version = Version(text: string, committedAt: nat)

  datatype Reader = Missed | Loaded(version: nat, readAt: nat)

  /** `owed` maps a writer that has committed but not yet invalidated to the version it wrote;
      `floor` is the newest version whose invalidation has landed. */
  datatype State = State(
    now: nat,
    versions: seq<Version>,
    key: Option<Entry>,
    readers: map<nat, Reader>,
    owed: map<nat, nat>,
    floor: nat)

  datatype Event =
    | Tick(elapsed: nat)
    | Commit(writer: nat, text: string)
    | Invalidate(writer: nat, ttl: nat, redisOk: bool)
    | Get(reader: nat, redisOk: bool)
    | Load(reader: nat)
    | Populate(reader: nat, populateTtl: int, redisOk: bool)
    | Abandon(reader: nat)

  function Init(text: string): State {
    State(0, [Version(text, 0)], None, map[], map[], 0)
  }

  function Apply(c: Config, s: State, e: Event): State {
    match e
    case Tick(d) => s.(now := s.now + d)
    case Commit(w, text) =>
      if w in s.owed then s
      else s.(versions := s.versions + [Version(text, s.now)], owed := s.owed[w := |s.versions|])
    case Invalidate(w, ttl, ok) =>
      if w !in s.owed || ttl < c.tombstoneTtl then s
      else if ok then s.(key := InvalidateKey(s.now, ttl), floor := Max(s.floor, s.owed[w]), owed := s.owed - {w})
      else s.(owed := s.owed - {w})
    case Get(r, ok) =>
      if r in s.readers || (ok && ReadKey(s.key, s.now).Some?) then s
      else s.(readers := s.readers[r := Missed])
    case Load(r) =>
      if r in s.readers && s.readers[r].Missed? && |s.versions| > 0
      then s.(readers := s.readers[r := Loaded(|s.versions| - 1, s.now)])
      else s
    case Populate(r, ttl, ok) =>
      if r in s.readers && s.readers[r].Loaded? && s.readers[r].version < |s.versions|
         && s.now <= s.readers[r].readAt + c.delay && ttl <= c.populateTtl
      then
        var Loaded(v, t) := s.readers[r];
        s.(readers := s.readers - {r},
           key := if ok then PopulateKey(s.key, s.now, s.versions[v].text, ttl, Population(v, t)) else s.key)
      else s
    case Abandon(r) => s.(readers := s.readers - {r})
  }

  /** The state after an arbitrary interleaving `es`, starting from a database holding `text`. */
  function Exec(c: Config, text: string, es: seq<Event>): State {
    if es == [] then Init(text)
    else Apply(c, Exec(c, text, es[..|es| - 1]), es[|es| - 1])
  }

  lemma ExecSnoc(c: Config, text: string, es: seq<Event>, e: Event)
    ensures Exec(c, text, es + [e]) == Apply(c, Exec(c, text, es), e)
  {
    assert (es + [e])[..|es|] == es;
  }

  // ----- What the cache must agree with -----

  /** `v` was the committed version at instant `t`. */
  predicate CurrentAt(versions: seq<Version>, v: nat, t: nat) {
    && v < |versions|
    && versions[v].committedAt <= t
    && (v + 1 < |versions| ==> t <= versions[v + 1].committedAt)
  }

  predicate IsHit(s: State) {
    ReadKey(s.key, s.now).Some?
  }

  /** A hit now returns a version no older than any write whose invalidation has landed. */
  predicate Fresh(s: State) {
    IsHit(s) ==> s.key.value.origin.Population? && s.floor <= s.key.value.origin.version
  }

  /** A hit now returns the exact text of a version that was current less than `bound` ago. */
  ghost predicate StaleLessThan(s: State, bound: nat) {
    IsHit(s) ==>
      && s.key.value.origin.Population?
      && var v := s.key.value.origin.version;
      && v < |s.versions| && ReadKey(s.key, s.now) == Some(s.versions[v].text)
      && exists t: nat :: CurrentAt(s.versions, v, t) && t <= s.now < t + bound
  }

  // ----- Invariants -----

  predicate HistoryOk(s: State) {
    && |s.versions| > 0
    && s.floor < |s.versions|
    && (forall i, j :: 0 <= i < j < |s.versions| ==> s.versions[i].committedAt <= s.versions[j].committedAt)
    && (forall i :: 0 <= i < |s.versions| ==> s.versions[i].committedAt <= s.now)
    && (forall w :: w in s.owed ==> s.owed[w] < |s.versions|)
  }

  predicate ReadersOk(s: State) {
    forall r :: r in s.readers && s.readers[r].Loaded? ==>
      CurrentAt(s.versions, s.readers[r].version, s.readers[r].readAt) && s.readers[r].readAt <= s.now
  }

  predicate EntryOk(c: Config, s: State) {
    s.key.Some? ==>
      match s.key.value.origin
      case Invalidation => s.key.value.text == TOMBSTONE
      case Population(v, t) =>
        && CurrentAt(s.versions, v, t)
        && t <= s.now
        && s.key.value.text == s.versions[v].text
        && s.key.value.expiresAt <= t + c.delay + c.populateTtl
  }

  /** Holds whatever the TTLs are and however many invalidations are lost. */
  predicate Consistent(c: Config, s: State) {
    HistoryOk(s) && ReadersOk(s) && EntryOk(c, s)
  }

  /** A reader holding a superseded version finds the key occupied until it may no longer populate. */
  predicate StaleReadersBlocked(c: Config, s: State) {
    forall r :: r in s.readers && s.readers[r].Loaded? && s.readers[r].version < s.floor
                && s.now <= s.readers[r].readAt + c.delay ==>
      s.key.Some? && s.readers[r].readAt + c.delay < s.key.value.expiresAt
  }

  predicate LiveEntryFresh(s: State) {
    Live(s.key, s.now) && s.key.value.origin.Population? ==> s.floor <= s.key.value.origin.version
  }

  lemma HistoryStep(c: Config, s: State, e: Event)
    requires HistoryOk(s)
    ensures HistoryOk(Apply(c, s, e))
  {
  }

  lemma ReadersStep(c: Config, s: State, e: Event)
    requires HistoryOk(s) && ReadersOk(s)
    ensures ReadersOk(Apply(c, s, e))
  {
  }

  lemma EntryStep(c: Config, s: State, e: Event)
    requires Consistent(c, s)
    ensures EntryOk(c, Apply(c, s, e))
  {
  }

  lemma ConsistentStep(c: Config, s: State, e: Event)
    requires Consistent(c, s)
    ensures Consistent(c, Apply(c, s, e))
  {
    HistoryStep(c, s, e);
    ReadersStep(c, s, e);
    EntryStep(c, s, e);
  }

  lemma FreshStep(c: Config, s: State, e: Event)
    requires c.delay < c.tombstoneTtl
    requires Consistent(c, s) && StaleReadersBlocked(c, s) && LiveEntryFresh(s)
    ensures StaleReadersBlocked(c, Apply(c, s, e)) && LiveEntryFresh(Apply(c, s, e))
  {
  }

  lemma {:induction false} ConsistentAlways(c: Config, text: string, es: seq<Event>)
    ensures Consistent(c, Exec(c, text, es))
  {
    if es != [] {
      ConsistentAlways(c, text, es[..|es| - 1]);
      ConsistentStep(c, Exec(c, text, es[..|es| - 1]), es[|es| - 1]);
    }
  }

  lemma {:induction false} FreshAlways(c: Config, text: string, es: seq<Event>)
    requires c.delay < c.tombstoneTtl
    ensures StaleReadersBlocked(c, Exec(c, text, es)) && LiveEntryFresh(Exec(c, text, es))
  {
    if es != [] {
      var prefix := es[..|es| - 1];
      FreshAlways(c, text, prefix);
      ConsistentAlways(c, text, prefix);
      FreshStep(c, Exec(c, text, prefix), es[|es| - 1]);
    }
  }

  // ----- What the steps are for -----

  /** A reader goes to the database exactly when the key holds no servable text, or Redis fails. */
  lemma MissesExactlyWhen(c: Config, text: string, es: seq<Event>, r: nat, redisOk: bool)
    requires r !in Exec(c, text, es).readers
    ensures var s, s' := Exec(c, text, es), Exec(c, text, es + [Get(r, redisOk)]);
            && s' == s.(readers := s'.readers)
            && s'.readers ==
               if redisOk && s.key.Some? && s.now < s.key.value.expiresAt
                  && s.key.value.text != "" && s.key.value.text != "__invalidated__"
               then s.readers else s.readers[r := Missed]
  {
    ExecSnoc(c, text, es, Get(r, redisOk));
  }

  predicate Free(s: State) {
    s.key.None? || s.key.value.expiresAt <= s.now
  }

  /** A miss on a free key, and the load that follows. */
  lemma MissLoads(c: Config, s: State, r: nat)
    requires r !in s.readers && Free(s) && |s.versions| > 0
    ensures Apply(c, Apply(c, s, Get(r, true)), Load(r)) ==
            s.(readers := s.readers[r := Loaded(|s.versions| - 1, s.now)])
  {
    assert Apply(c, s, Get(r, true)) == s.(readers := s.readers[r := Missed]);
    assert s.readers[r := Missed][r := Loaded(|s.versions| - 1, s.now)]
           == s.readers[r := Loaded(|s.versions| - 1, s.now)];
  }

  lemma PopulateStores(c: Config, s: State, r: nat, ttl: nat, v: nat)
    requires 1 <= ttl <= c.populateTtl && v < |s.versions| && r in s.readers && s.readers[r] == Loaded(v, s.now)
    requires Free(s)
    ensures Apply(c, s, Populate(r, ttl, true)).key ==
            Some(Entry(s.versions[v].text, s.now + ttl, Population(v, s.now)))
  {
  }

  /** The entry that a population of the latest version stores. */
  function Stored(s: State, ttl: nat): Entry
    requires |s.versions| > 0
  {
    Entry(s.versions[|s.versions| - 1].text, s.now + ttl, Population(|s.versions| - 1, s.now))
  }

  lemma ReadThroughStores(c: Config, s: State, r: nat, ttl: nat)
    requires 1 <= ttl <= c.populateTtl && r !in s.readers && Free(s) && |s.versions| > 0
    ensures Apply(c, Apply(c, Apply(c, s, Get(r, true)), Load(r)), Populate(r, ttl, true)).key == Some(Stored(s, ttl))
  {
    var v: nat := |s.versions| - 1;
    var loaded := s.(readers := s.readers[r := Loaded(v, s.now)]);
    MissLoads(c, s, r);
    PopulateStores(c, loaded, r, ttl, v);
  }

  lemma ServedUntilExpiry(entry: Entry, later: nat)
    requires later < entry.expiresAt
    ensures ReadKey(Some(entry), later) ==
            if entry.text == "" || entry.text == TOMBSTONE then None else Some(entry.text)
  {
  }

  /** From every state, a reader that misses on a free key, loads and populates makes the latest
      committed text the answer for the next `ttl`, unless that text reads as a miss itself. */
  lemma ReadThroughServes(c: Config, s: State, r: nat, ttl: nat, later: nat)
    requires 1 <= ttl <= c.populateTtl && r !in s.readers && Free(s) && |s.versions| > 0 && later < s.now + ttl
    ensures var s' := Apply(c, Apply(c, Apply(c, s, Get(r, true)), Load(r)), Populate(r, ttl, true));
            var latest := s.versions[|s.versions| - 1].text;
            ReadKey(s'.key, later) == if latest == "" || latest == TOMBSTONE then None else Some(latest)
  {
    ReadThroughStores(c, s, r, ttl);
    ServedUntilExpiry(Stored(s, ttl), later);
  }

  /** The key holds a tombstone until `deadline` at least, or that has passed. */
  predicate Hidden(s: State, deadline: nat) {
    s.now < deadline ==> s.key.Some? && s.key.value.text == "__invalidated__" && deadline <= s.key.value.expiresAt
  }

  lemma HiddenStep(c: Config, s: State, e: Event, deadline: nat)
    requires Hidden(s, deadline) && deadline <= s.now + c.tombstoneTtl
    ensures Hidden(Apply(c, s, e), deadline) && s.now <= Apply(c, s, e).now
  {
  }

  /** Once an invalidation lands, every read misses for the least tombstone TTL, whatever readers and
      other writers do meanwhile. */
  lemma {:induction false} InvalidationHides(
    c: Config, text: string, es: seq<Event>, w: nat, ttl: nat, more: seq<Event>)
    requires w in Exec(c, text, es).owed && c.tombstoneTtl <= ttl
    ensures var deadline := Exec(c, text, es).now + c.tombstoneTtl;
            var s := Exec(c, text, es + [Invalidate(w, ttl, true)] + more);
            && Hidden(s, deadline) && deadline <= s.now + c.tombstoneTtl
            && (s.now < deadline ==> ReadKey(s.key, s.now) == None)
    decreases |more|
  {
    var deadline, landed := Exec(c, text, es).now + c.tombstoneTtl, es + [Invalidate(w, ttl, true)];
    if more == [] {
      ExecSnoc(c, text, es, Invalidate(w, ttl, true));
      assert landed + more == landed;
    } else {
      var most, e := more[..|more| - 1], more[|more| - 1];
      InvalidationHides(c, text, es, w, ttl, most);
      HiddenStep(c, Exec(c, text, landed + most), e, deadline);
      assert landed + more == landed + most + [e];
      ExecSnoc(c, text, landed + most, e);
    }
  }

  // ----- Main theorems -----

  /** The run that defeats a tombstone no longer than the populate delay: the reader loads the old
      version, the write commits and invalidates, the tombstone lapses, and the reader populates. */
  function StaleRun(c: Config): seq<Event> {
    [Get(0, true), Load(0), Commit(0, "new"), Invalidate(0, c.tombstoneTtl, true),
     Tick(c.tombstoneTtl), Populate(0, 1, true)]
  }

  lemma StaleRunIsStale(c: Config)
    requires 1 <= c.tombstoneTtl <= c.delay && 1 <= c.populateTtl
    ensures !Fresh(Exec(c, "old", StaleRun(c)))
  {
    var es := StaleRun(c);
    assert es[..0] == [];
    var s0 := Exec(c, "old", es[..0]);
    ExecSnoc(c, "old", es[..0], es[0]); assert es[..1] == es[..0] + [es[0]];
    ExecSnoc(c, "old", es[..1], es[1]); assert es[..2] == es[..1] + [es[1]];
    ExecSnoc(c, "old", es[..2], es[2]); assert es[..3] == es[..2] + [es[2]];
    ExecSnoc(c, "old", es[..3], es[3]); assert es[..4] == es[..3] + [es[3]];
    ExecSnoc(c, "old", es[..4], es[4]); assert es[..5] == es[..4] + [es[4]];
    ExecSnoc(c, "old", es[..5], es[5]); assert es == es[..5] + [es[5]];
  }

  /** No later hit is older than a landed invalidation, in every interleaving, exactly when the
      tombstone outlives the longest populate delay. */
  lemma FreshnessExactlyWhenTombstoneOutlivesDelay(c: Config)
    requires 1 <= c.tombstoneTtl && 1 <= c.populateTtl
    ensures (forall text, es :: Fresh(Exec(c, text, es))) <==> c.delay < c.tombstoneTtl
  {
    if c.delay < c.tombstoneTtl {
      forall text, es ensures Fresh(Exec(c, text, es)) {
        ConsistentAlways(c, text, es);
        FreshAlways(c, text, es);
      }
    } else {
      StaleRunIsStale(c);
    }
  }

  /** The slowest stale answer: its invalidation is lost, it is populated as late as allowed and
      read at the last instant of its TTL. */
  function SlowRun(c: Config): seq<Event>
    requires 1 <= c.populateTtl
  {
    [Get(0, true), Load(0), Commit(0, "new"), Invalidate(0, c.tombstoneTtl, false),
     Tick(c.delay), Populate(0, c.populateTtl, true), Tick(c.populateTtl - 1)]
  }

  lemma SlowRunReachesBound(c: Config, bound: nat)
    requires 1 <= c.populateTtl && bound < c.delay + c.populateTtl
    ensures !StaleLessThan(Exec(c, "old", SlowRun(c)), bound)
  {
    var es := SlowRun(c);
    assert es[..0] == [];
    var s0 := Exec(c, "old", es[..0]);
    ExecSnoc(c, "old", es[..0], es[0]); assert es[..1] == es[..0] + [es[0]];
    ExecSnoc(c, "old", es[..1], es[1]); assert es[..2] == es[..1] + [es[1]];
    ExecSnoc(c, "old", es[..2], es[2]); assert es[..3] == es[..2] + [es[2]];
    ExecSnoc(c, "old", es[..3], es[3]); assert es[..4] == es[..3] + [es[3]];
    ExecSnoc(c, "old", es[..4], es[4]); assert es[..5] == es[..4] + [es[4]];
    ExecSnoc(c, "old", es[..5], es[5]); assert es[..6] == es[..5] + [es[5]];
    ExecSnoc(c, "old", es[..6], es[6]); assert es == es[..6] + [es[6]];
    var s := Exec(c, "old", es);
    assert s.versions == [Version("old", 0), Version("new", 0)];
  }

  /** Even when every invalidation is lost to a swallowed Redis error, a served value was the
      committed one less than `delay + populateTtl` ago, and no smaller bound holds. */
  lemma StalenessBoundIsExact(c: Config, bound: nat)
    requires 1 <= c.populateTtl
    ensures (forall text, es :: StaleLessThan(Exec(c, text, es), bound)) <==> c.delay + c.populateTtl <= bound
  {
    if c.delay + c.populateTtl <= bound {
      forall text, es ensures StaleLessThan(Exec(c, text, es), bound) {
        ConsistentAlways(c, text, es);
        var s := Exec(c, text, es);
        if IsHit(s) {
          assert CurrentAt(s.versions, s.key.value.origin.version, s.key.value.origin.readAt);
        }
      }
    } else {
      SlowRunReachesBound(c, bound);
    }
  }
}
