/**
  The bridge itself: `IpcBridge` of bridge.rs. Its threads are held by value in a hash map, here
  a map that the methods reassign; the clock readings are parameters. Every method is proved to
  take one step of the relation `Step`, on which the properties of whole runs are stated.
 */
module Bridge {
  import opened Wrappers
  import opened Json
  import opened ImmerPatch
  import opened Thread
  import opened ConversationState
  import opened Diff

  datatype ThreadCache = ThreadCache(raw: Value, projection: Projection, lastUpdated: int, snapshots: Snapshots)

  type Threads = map<string, ThreadCache>

  datatype Change = Snapshot(state: Value) | Patches(patches: seq<Patch>)

  datatype Broadcast =
    | StreamStateChanged(threadId: string, change: Change)
    | Archived(threadId: string)
    | Unarchived(threadId: string)
    | OtherBroadcast

  /** `Panicked` is what a caller sees of a panic: no answer, and the cache as it was. */
  datatype Output =
    | Events(threadId: string, events: seq<Event>)
    | NeedsRefresh(threadId: string)
    | FullReplace(threadId: string)
    | Panicked(threadId: string)
    | ThreadArchived(threadId: string)
    | ThreadUnarchived(threadId: string)
    | Nothing

  datatype ApplyError = NoCachedState | PatchFailed(error: PatchError)

  // ----- One broadcast -----

  /** `apply_stream_change_to_conversation_state` on a copy of the cached state. */
  function ApplyChange(cached: Option<Value>, change: Change): Result<Value, ApplyError> {
    match change
    case Snapshot(state) => Ok(state)
    case Patches(patches) =>
      if cached.None? then Err(NoCachedState)
      else
        var batch := ApplyPatches(cached.value, patches);
        if batch.error.Some? then Err(PatchFailed(batch.error.value)) else Ok(batch.root)
  }

  method ApplyStreamChange(cached: Option<Value>, change: Change) returns (r: Result<Value, ApplyError>)
    ensures r == ApplyChange(cached, change)
  {
    match change
    case Snapshot(state) => return Ok(state);
    case Patches(patches) =>
      if cached.None? {
        return Err(NoCachedState);
      }
      var doc := new Document(cached.value);
      var applied := doc.ApplyImmerPatches(patches);
      if applied.Err? {
        return Err(PatchFailed(applied.error));
      }
      return Ok(doc.root);
  }

  function CachedRaw(s: Threads, id: string): Option<Value> {
    if id in s then Some(s[id].raw) else None
  }

  /** A raw state and the projection it has. */
  datatype Accepted = Accepted(raw: Value, projection: Projection)

  /** What a change leads to, if it applies and its result projects. */
  function Accept(c: Codec, s: Threads, id: string, change: Change): Option<Accepted> {
    match ApplyChange(CachedRaw(s, id), change)
    case Err(_) => None
    case Ok(raw) =>
      match ProjectState(c, id, raw)
      case Err(_) => None
      case Ok(p) => Some(Accepted(raw, p))
  }

  predicate HasSynthesizedTurn(p: Projection) {
    exists t :: t in p.thread.turns && "ipc-turn-" <= t.id
  }

  function FreshCache(a: Accepted, now: int): ThreadCache {
    ThreadCache(a.raw, a.projection, now, InsertTurns(map[], a.projection.thread.turns))
  }

  /** What may be left of `before` when it holds more than `max` threads: never a newer one goes before an older one. */
  ghost predicate Evicted(before: Threads, max: nat, after: Threads) {
    && after.Keys <= before.Keys
    && (forall id :: id in after ==> after[id] == before[id])
    && |after| == (if |before| <= max then |before| else max)
    && (forall gone, kept :: gone in before.Keys - after.Keys && kept in after ==>
          before[gone].lastUpdated <= before[kept].lastUpdated)
  }

  ghost predicate StreamStep(
      c: Codec, max: nat, s: Threads, id: string, change: Change, now: int, s': Threads, out: Output) {
    match Accept(c, s, id, change)
    case None => s' == s && out == NeedsRefresh(id)
    case Some(a) =>
      if id !in s then
        Evicted(s[id := FreshCache(a, now)], max, s') && out == Events(id, FirstEvents(a.projection))
      else
        var cache := s[id];
        if HasSynthesizedTurn(cache.projection) && !HasSynthesizedTurn(a.projection) then
          s' == s[id := ThreadCache(a.raw, a.projection, now, cache.snapshots)] && out == FullReplace(id)
        else if !DiffFits(cache.projection, a.projection, cache.snapshots) then
          s' == s && out == Panicked(id)
        else
          var snapshots := InsertTurns(cache.snapshots, a.projection.thread.turns);
          && s' == s[id := ThreadCache(a.raw, a.projection, now, snapshots)]
          && out == Events(id, DiffEvents(cache.projection, a.projection, cache.snapshots))
  }

  ghost predicate BroadcastStep(c: Codec, max: nat, s: Threads, b: Broadcast, now: int, s': Threads, out: Output) {
    match b
    case StreamStateChanged(id, change) => StreamStep(c, max, s, id, change, now, s', out)
    case Archived(id) => s' == s - {id} && out == ThreadArchived(id)
    case Unarchived(id) => s' == s && out == ThreadUnarchived(id)
    case OtherBroadcast => s' == s && out == Nothing
  }

  // ----- Seeding and staleness -----

  ghost predicate SeedStep(c: Codec, max: nat, s: Threads, id: string, raw: Value, now: int, s': Threads) {
    match ProjectState(c, id, raw)
    case Err(_) => s' == s
    case Ok(p) => Evicted(s[id := FreshCache(Accepted(raw, p), now)], max, s')
  }

  /** An event tagged with its thread. */
  datatype BridgeEvent = BridgeEvent(threadId: string, event: Event)

  datatype Checked = Checked(cache: ThreadCache, events: seq<BridgeEvent>)

  /** `Instant::duration_since` does not go below zero. */
  function Elapsed(now: int, since: int): nat {
    if now < since then 0 else now - since
  }

  function CompletingIn(threadId: string, turn: Option<Turn>): seq<BridgeEvent> {
    if turn.Some? then [BridgeEvent(threadId, TurnCompleted(turn.value))] else []
  }

  /** One thread of `check_stale_turns`. */
  function CheckOne(c: Codec, id: string, cache: ThreadCache, now: int, threshold: nat): Checked {
    if cache.projection.activeTurnId.None? || Elapsed(now, cache.lastUpdated) < threshold then Checked(cache, [])
    else
      match ProjectState(c, id, cache.raw)
      case Err(_) => Checked(cache, [])
      case Ok(renewed) =>
        if renewed.activeTurnId.Some? then Checked(cache, [])
        else Checked(cache.(projection := renewed, lastUpdated := now),
                     CompletingIn(id, FindTurn(renewed.thread.turns, cache.projection.activeTurnId.value)))
  }

  function CheckedThreads(c: Codec, s: Threads, now: int, threshold: nat): Threads {
    map id | id in s :: CheckOne(c, id, s[id], now, threshold).cache
  }

  /** The events of checking the threads in some order. */
  function StaleEvents(c: Codec, s: Threads, order: seq<string>, now: int, threshold: nat): seq<BridgeEvent>
    requires forall id :: id in order ==> id in s
  {
    if order == [] then []
    else
      var last := order[|order| - 1];
      StaleEvents(c, s, order[..|order| - 1], now, threshold) + CheckOne(c, last, s[last], now, threshold).events
  }

  ghost predicate Enumerates(order: seq<string>, ids: set<string>) {
    && (forall i, j :: 0 <= i < j < |order| ==> order[i] != order[j])
    && (forall id :: id in order <==> id in ids)
  }

  ghost predicate StaleStep(c: Codec, s: Threads, now: int, threshold: nat, s': Threads, events: seq<BridgeEvent>) {
    && s' == CheckedThreads(c, s, now, threshold)
    && exists order :: Enumerates(order, s.Keys) && events == StaleEvents(c, s, order, now, threshold)
  }

  // ----- The transition relation -----

  datatype BridgeOp =
    | Process(broadcast: Broadcast, now: int)
    | Seed(threadId: string, raw: Value, now: int)
    | Forget(threadId: string)
    | Reset
    | CheckStale(now: int, threshold: nat)

  datatype Reply = Reply(output: Output, stale: seq<BridgeEvent>)

  const SILENT := Reply(Nothing, [])

  ghost predicate Step(c: Codec, max: nat, s: Threads, op: BridgeOp, s': Threads, reply: Reply) {
    match op
    case Process(b, now) => BroadcastStep(c, max, s, b, now, s', reply.output) && reply.stale == []
    case Seed(id, raw, now) => SeedStep(c, max, s, id, raw, now, s') && reply == SILENT
    case Forget(id) => s' == s - {id} && reply == SILENT
    case Reset => s' == map[] && reply == SILENT
    case CheckStale(now, threshold) =>
      StaleStep(c, s, now, threshold, s', reply.stale) && reply.output == Nothing
  }

  predicate IsOldest(s: Threads, id: string) {
    id in s && forall k :: k in s ==> s[id].lastUpdated <= s[k].lastUpdated
  }

  lemma {:induction false} OldestExists(s: Threads)
    requires s != map[]
    ensures exists id :: IsOldest(s, id)
    decreases |s|
  {
    var id :| id in s;
    var rest := s - {id};
    assert s.Keys == rest.Keys + {id};
    if rest == map[] {
      assert IsOldest(s, id);
    } else {
      assert |s.Keys| == |rest.Keys| + 1;
      OldestExists(rest);
      var o :| IsOldest(rest, o);
      assert IsOldest(s, if s[id].lastUpdated <= s[o].lastUpdated then id else o);
    }
  }

  /** The staleness check half way: all but the threads in `todo` have been checked, in the order given. */
  ghost predicate StaleSoFar(
      c: Codec, s: Threads, now: int, threshold: nat, todo: set<string>, order: seq<string>, t: Threads,
      events: seq<BridgeEvent>) {
    && todo <= s.Keys == t.Keys
    && Enumerates(order, s.Keys - todo)
    && (forall id :: id in order ==> id in s)
    && events == StaleEvents(c, s, order, now, threshold)
    && (forall id :: id in s ==> t[id] == if id in todo then s[id] else CheckOne(c, id, s[id], now, threshold).cache)
  }

  lemma StaleStart(c: Codec, s: Threads, now: int, threshold: nat)
    ensures StaleSoFar(c, s, now, threshold, s.Keys, [], s, [])
  {
    hide CheckOne;
  }

  lemma StaleNext(
      c: Codec, s: Threads, now: int, threshold: nat, todo: set<string>, order: seq<string>, t: Threads,
      events: seq<BridgeEvent>, id: string)
    requires StaleSoFar(c, s, now, threshold, todo, order, t, events) && id in todo
    ensures id in s && id in t && t[id] == s[id]
    ensures var checked := CheckOne(c, id, s[id], now, threshold);
            StaleSoFar(c, s, now, threshold, todo - {id}, order + [id], t[id := checked.cache], events + checked.events)
  {
    hide CheckOne, Enumerates, StaleEvents;
    assert id !in order by {
      EnumeratedAre(order, s.Keys - todo, id);
    }
    EnumeratesOneMore(order, s.Keys - todo, id);
    assert s.Keys - todo + {id} == s.Keys - (todo - {id});
    StaleEventsOneMore(c, s, order, id, now, threshold);
  }

  lemma EnumeratedAre(order: seq<string>, ids: set<string>, id: string)
    requires Enumerates(order, ids)
    ensures id in order <==> id in ids
  {
  }

  lemma EnumeratesOneMore(order: seq<string>, ids: set<string>, id: string)
    requires Enumerates(order, ids) && id !in ids
    ensures Enumerates(order + [id], ids + {id})
  {
  }

  lemma StaleEventsOneMore(c: Codec, s: Threads, order: seq<string>, id: string, now: int, threshold: nat)
    requires id in s && forall k :: k in order ==> k in s
    ensures forall k :: k in order + [id] ==> k in s
    ensures StaleEvents(c, s, order + [id], now, threshold) ==
            StaleEvents(c, s, order, now, threshold) + CheckOne(c, id, s[id], now, threshold).events
  {
    hide CheckOne;
    assert (order + [id])[..|order|] == order;
  }

  lemma StaleDone(
      c: Codec, s: Threads, now: int, threshold: nat, order: seq<string>, t: Threads, events: seq<BridgeEvent>)
    requires StaleSoFar(c, s, now, threshold, {}, order, t, events)
    ensures StaleStep(c, s, now, threshold, t, events)
  {
    hide CheckOne, StaleEvents;
    assert s.Keys - {} == s.Keys;
    assert t == CheckedThreads(c, s, now, threshold);
  }

  const DEFAULT_MAX_CACHE_SIZE: nat := 64

  class IpcBridge {
    const codec: Codec
    const maxCacheSize: nat
    var threads: Threads

    constructor (codec: Codec)
      ensures threads == map[] && this.codec == codec && maxCacheSize == 64
    {
      this.codec := codec;
      maxCacheSize := DEFAULT_MAX_CACHE_SIZE;
      threads := map[];
    }

    constructor WithMaxCacheSize(codec: Codec, max: nat)
      ensures threads == map[] && this.codec == codec && maxCacheSize == max
    {
      this.codec := codec;
      maxCacheSize := max;
      threads := map[];
    }

    /** Drops least recently updated threads until the cache fits. */
    method EvictLru()
      modifies this
      ensures Evicted(old(threads), maxCacheSize, threads)
    {
      while |threads| > maxCacheSize
        invariant threads.Keys <= old(threads).Keys
        invariant forall id :: id in threads ==> threads[id] == old(threads)[id]
        invariant |threads| >= (if |old(threads)| <= maxCacheSize then |old(threads)| else maxCacheSize)
        invariant |old(threads)| <= maxCacheSize ==> threads == old(threads)
        invariant forall gone, kept :: gone in old(threads).Keys - threads.Keys && kept in threads ==>
                    old(threads)[gone].lastUpdated <= old(threads)[kept].lastUpdated
      {
        OldestExists(threads);
        var id :| IsOldest(threads, id);
        ghost var before := threads;
        threads := threads - {id};
        assert before.Keys == threads.Keys + {id};
        assert |before.Keys| == |before| && |threads.Keys| == |threads|;
      }
    }

    method HandleStreamStateChanged(id: string, change: Change, now: int) returns (out: Output)
      modifies this
      ensures StreamStep(codec, maxCacheSize, old(threads), id, change, now, threads, out)
    {
      hide InsertTurns, DiffEvents, DiffFits, FirstEvents, ProjectState, Evicted, HasSynthesizedTurn;
      var applied := ApplyStreamChange(CachedRaw(threads, id), change);
      if applied.Err? {
        return NeedsRefresh(id);
      }
      var projected := ProjectState(codec, id, applied.value);
      if projected.Err? {
        return NeedsRefresh(id);
      }
      var next := projected.value;
      var events: seq<Event>;
      var snapshots: Snapshots;
      if id in threads {
        var cache := threads[id];
        if HasSynthesizedTurn(cache.projection) && !HasSynthesizedTurn(next) {
          threads := threads[id := ThreadCache(applied.value, next, now, cache.snapshots)];
          return FullReplace(id);
        }
        var diffed: Result<seq<Event>, Panic>;
        diffed, snapshots := DiffProjections(cache.projection, next, cache.snapshots);
        if diffed.Err? {
          return Panicked(id);
        }
        events := diffed.value;
        threads := threads[id := ThreadCache(applied.value, next, now, snapshots)];
      } else {
        events, snapshots := BootstrapEvents(next);
        threads := threads[id := ThreadCache(applied.value, next, now, snapshots)];
        EvictLru();
      }
      return Events(id, events);
    }

    method ProcessBroadcast(b: Broadcast, now: int) returns (out: Output)
      modifies this
      ensures Step(codec, maxCacheSize, old(threads), Process(b, now), threads, Reply(out, []))
    {
      match b
      case StreamStateChanged(id, change) => out := HandleStreamStateChanged(id, change, now);
      case Archived(id) =>
        threads := threads - {id};
        out := ThreadArchived(id);
      case Unarchived(id) => out := ThreadUnarchived(id);
      case OtherBroadcast => out := Nothing;
    }

    method CheckThread(id: string, cache: ThreadCache, now: int, threshold: nat) returns (r: Checked)
      ensures r == CheckOne(codec, id, cache, now, threshold)
    {
      hide ProjectState, FindTurn;
      if cache.projection.activeTurnId.None? || Elapsed(now, cache.lastUpdated) < threshold {
        return Checked(cache, []);
      }
      var renewed := ProjectState(codec, id, cache.raw);
      if renewed.Err? || renewed.value.activeTurnId.Some? {
        return Checked(cache, []);
      }
      var events: seq<BridgeEvent> := [];
      var turn := FindTurn(renewed.value.thread.turns, cache.projection.activeTurnId.value);
      if turn.Some? {
        events := [BridgeEvent(id, TurnCompleted(turn.value))];
      }
      return Checked(cache.(projection := renewed.value, lastUpdated := now), events);
    }

    method CheckStaleTurns(now: int, threshold: nat) returns (events: seq<BridgeEvent>)
      modifies this
      ensures Step(codec, maxCacheSize, old(threads), CheckStale(now, threshold), threads, Reply(Nothing, events))
    {
      hide CheckOne, StaleSoFar, StaleStep;
      events := [];
      ghost var order: seq<string> := [];
      StaleStart(codec, threads, now, threshold);
      var todo := threads.Keys;
      while todo != {}
        invariant StaleSoFar(codec, old(threads), now, threshold, todo, order, threads, events)
        decreases |todo|
      {
        var id :| id in todo;
        StaleNext(codec, old(threads), now, threshold, todo, order, threads, events, id);
        var checked := CheckThread(id, threads[id], now, threshold);
        events := events + checked.events;
        threads := threads[id := checked.cache];
        order := order + [id];
        todo := todo - {id};
      }
      StaleDone(codec, old(threads), now, threshold, order, threads, events);
    }

    method SeedThread(id: string, raw: Value, now: int)
      modifies this
      ensures Step(codec, maxCacheSize, old(threads), Seed(id, raw, now), threads, SILENT)
    {
      hide InsertTurns, ProjectState, Evicted;
      var projected := ProjectState(codec, id, raw);
      if projected.Err? {
        return;
      }
      var snapshots := RecordTexts(map[], projected.value.thread.turns);
      threads := threads[id := ThreadCache(raw, projected.value, now, snapshots)];
      EvictLru();
    }

    method RemoveThread(id: string)
      modifies this
      ensures Step(codec, maxCacheSize, old(threads), Forget(id), threads, SILENT)
    {
      threads := threads - {id};
    }

    method ResetAll()
      modifies this
      ensures Step(codec, maxCacheSize, old(threads), Reset, threads, SILENT)
    {
      threads := map[];
    }

    method ProjectedState(id: string) returns (r: Option<Projection>)
      ensures r == if id in threads then Some(threads[id].projection) else None
    {
      r := if id in threads then Some(threads[id].projection) else None;
    }

    method RawState(id: string) returns (r: Option<Value>)
      ensures r == CachedRaw(threads, id)
    {
      r := CachedRaw(threads, id);
    }
  }
}
