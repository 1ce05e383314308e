/** Properties of every run of the bridge: coherence, history, and agreement with a consumer. */
module BridgeRuns {
  import opened Wrappers
  import opened Json
  import opened ImmerPatch
  import opened Thread
  import opened ConversationState
  import opened Diff
  import opened Replay
  import opened EventLog
  import opened TextSnapshots
  import opened Bridge

  /** The states, operations and replies of a run from an empty cache. */
  datatype Run = Run(states: seq<Threads>, ops: seq<BridgeOp>, replies: seq<Reply>)

  ghost predicate WellSized(r: Run) {
    |r.states| == |r.ops| + 1 && |r.replies| == |r.ops|
  }

  ghost predicate IsRun(c: Codec, max: nat, r: Run) {
    && WellSized(r)
    && r.states[0] == map[]
    && forall i :: 0 <= i < |r.ops| ==> StepAt(c, max, r, i)
  }

  ghost predicate StepAt(c: Codec, max: nat, r: Run, i: nat)
    requires WellSized(r) && i < |r.ops|
  {
    Step(c, max, r.states[i], r.ops[i], r.states[i + 1], r.replies[i])
  }

  // ----- Cache coherence -----

  /** Every cached projection is the projection of the cached raw state. */
  ghost predicate Coherent(c: Codec, s: Threads) {
    forall id :: id in s ==> ProjectState(c, id, s[id].raw) == Ok(s[id].projection)
  }

  lemma AcceptProjects(c: Codec, s: Threads, id: string, change: Change)
    requires Accept(c, s, id, change).Some?
    ensures var a := Accept(c, s, id, change).value; ProjectState(c, id, a.raw) == Ok(a.projection)
  {
    hide ProjectState, ApplyChange;
  }

  lemma CheckOneIdle(c: Codec, id: string, cache: ThreadCache, now: int, threshold: nat)
    requires ProjectState(c, id, cache.raw) == Ok(cache.projection)
    ensures CheckOne(c, id, cache, now, threshold) == Checked(cache, [])
  {
    hide ProjectState;
  }

  lemma {:induction false} StaleEventsNone(c: Codec, s: Threads, order: seq<string>, now: int, threshold: nat)
    requires Coherent(c, s) && forall id :: id in order ==> id in s
    ensures StaleEvents(c, s, order, now, threshold) == []
  {
    hide ProjectState, CheckOne;
    if order != [] {
      var last := order[|order| - 1];
      StaleEventsNone(c, s, order[..|order| - 1], now, threshold);
      CheckOneIdle(c, last, s[last], now, threshold);
    }
  }

  /** From a coherent state the staleness check emits nothing and changes nothing, for any clock and threshold. */
  lemma {:induction false} StaleCheckIdle(
      c: Codec, max: nat, s: Threads, now: int, threshold: nat, s': Threads, reply: Reply)
    requires Coherent(c, s) && Step(c, max, s, CheckStale(now, threshold), s', reply)
    ensures s' == s && reply == SILENT
  {
    hide ProjectState, CheckOne;
    forall id | id in s ensures CheckOne(c, id, s[id], now, threshold) == Checked(s[id], []) {
      CheckOneIdle(c, id, s[id], now, threshold);
    }
    assert CheckedThreads(c, s, now, threshold) == s;
    var order :| Enumerates(order, s.Keys) && reply.stale == StaleEvents(c, s, order, now, threshold);
    StaleEventsNone(c, s, order, now, threshold);
  }

  lemma CoherentStream(c: Codec, max: nat, s: Threads, id: string, change: Change, now: int, s': Threads, out: Output)
    requires Coherent(c, s) && StreamStep(c, max, s, id, change, now, s', out)
    ensures Coherent(c, s')
  {
    hide ProjectState, InsertTurns, DiffEvents, DiffFits, FirstEvents, HasSynthesizedTurn, Accept;
    if Accept(c, s, id, change).Some? {
      AcceptProjects(c, s, id, change);
    }
  }

  lemma {:induction false} CoherentStep(c: Codec, max: nat, s: Threads, op: BridgeOp, s': Threads, reply: Reply)
    requires Coherent(c, s) && Step(c, max, s, op, s', reply)
    ensures Coherent(c, s')
  {
    hide ProjectState, StreamStep, StaleStep, InsertTurns;
    match op
    case Process(StreamStateChanged(id, change), now) => CoherentStream(c, max, s, id, change, now, s', reply.output);
    case CheckStale(now, threshold) => StaleCheckIdle(c, max, s, now, threshold, s', reply);
    case _ =>
  }

  /** In every reachable state of the bridge the cache is coherent. */
  lemma {:induction false} CoherentOverRuns(c: Codec, max: nat, r: Run, i: nat)
    requires IsRun(c, max, r) && i < |r.states|
    ensures Coherent(c, r.states[i])
  {
    hide Step, Coherent;
    if i == 0 {
      EmptyCoherent(c);
    } else {
      CoherentOverRuns(c, max, r, i - 1);
      assert StepAt(c, max, r, i - 1);
      CoherentStep(c, max, r.states[i - 1], r.ops[i - 1], r.states[i], r.replies[i - 1]);
    }
  }

  lemma EmptyCoherent(c: Codec)
    ensures Coherent(c, map[])
  {
  }

  /** So on every run the staleness check does nothing. */
  lemma {:induction false} StaleCheckIdleOverRuns(c: Codec, max: nat, r: Run, i: nat)
    requires IsRun(c, max, r) && i < |r.ops| && r.ops[i].CheckStale?
    ensures r.states[i + 1] == r.states[i] && r.replies[i] == SILENT
  {
    hide Step, Coherent;
    CoherentOverRuns(c, max, r, i);
    assert StepAt(c, max, r, i);
    StaleCheckIdle(c, max, r.states[i], r.ops[i].now, r.ops[i].threshold, r.states[i + 1], r.replies[i]);
  }

  // ----- Atomic batches and history -----

  /**
    A broadcast asks for a refresh exactly when its patches have nothing to apply to, one of
    them fails, or the result does not project, and panics exactly when the diff it comes to
    slices inside a character; then the bridge is unchanged. Otherwise only the thread it names
    changes, apart from eviction.
   */
  lemma BroadcastAtomic(c: Codec, max: nat, s: Threads, id: string, change: Change, now: int, s': Threads, out: Output)
    requires StreamStep(c, max, s, id, change, now, s', out)
    ensures out.NeedsRefresh? <==>
              || (change.Patches? && id !in s)
              || (change.Patches? && ApplyPatches(s[id].raw, change.patches).error.Some?)
              || ProjectState(c, id, ChangedRaw(s, id, change)).Err?
    ensures out.Panicked? <==>
              && !out.NeedsRefresh? && !out.FullReplace? && id in s
              && !DiffFits(s[id].projection, ProjectState(c, id, ChangedRaw(s, id, change)).value, s[id].snapshots)
    ensures Refused(out) ==> s' == s
    ensures !out.Nothing? && !out.ThreadArchived? && !out.ThreadUnarchived? && out.threadId == id
    ensures forall other :: other != id && other in s' ==> other in s && s'[other] == s[other]
    ensures !Refused(out) && id in s ==> s'.Keys == s.Keys
  {
    hide ProjectState, ApplyPatches, InsertTurns, DiffEvents, DiffFits, FirstEvents, HasSynthesizedTurn;
  }

  /** The other broadcasts: archiving drops the thread it names, and nothing else is ever touched. */
  lemma OtherAnswers(c: Codec, max: nat, s: Threads, b: Broadcast, now: int, s': Threads, out: Output)
    requires BroadcastStep(c, max, s, b, now, s', out) && !b.StreamStateChanged?
    ensures b.Archived? ==> out == ThreadArchived(b.threadId)
    ensures b.Unarchived? ==> out == ThreadUnarchived(b.threadId)
    ensures b.OtherBroadcast? ==> out == Nothing
    ensures forall id :: id in s' <==> id in s && b != Archived(id)
    ensures forall id :: id in s' ==> s'[id] == s[id]
  {
  }

  /** Is the thread one whose active turn, by a fresh projection, has ended unnoticed for at least `threshold`? */
  ghost predicate Overdue(c: Codec, id: string, cache: ThreadCache, now: int, threshold: nat) {
    && cache.projection.activeTurnId.Some?
    && (threshold == 0 || now >= cache.lastUpdated + threshold)
    && ProjectState(c, id, cache.raw).Ok?
    && ProjectState(c, id, cache.raw).value.activeTurnId.None?
  }

  /** The staleness check of any one thread: exactly an overdue one is projected anew, and its old turn reported. */
  lemma CheckedExactly(c: Codec, id: string, cache: ThreadCache, now: int, threshold: nat)
    ensures var checked := CheckOne(c, id, cache, now, threshold);
            if !Overdue(c, id, cache, now, threshold) then checked == Checked(cache, [])
            else
              var p, turnId := ProjectState(c, id, cache.raw).value, cache.projection.activeTurnId.value;
              && checked.cache == ThreadCache(cache.raw, p, now, cache.snapshots)
              && ((forall t :: t in p.thread.turns ==> t.id != turnId) ==> checked.events == [])
              && (forall k: nat :: FirstAt(p.thread.turns, turnId, k) ==>
                    checked.events == [BridgeEvent(id, TurnCompleted(p.thread.turns[k]))])
  {
    hide ProjectState, FindTurn;
    if Overdue(c, id, cache, now, threshold) {
      var p, turnId := ProjectState(c, id, cache.raw).value, cache.projection.activeTurnId.value;
      forall k: nat | FirstAt(p.thread.turns, turnId, k)
        ensures FindTurn(p.thread.turns, turnId) == Some(p.thread.turns[k])
      {
        FindsFirst(p.thread.turns, turnId, k);
      }
    }
  }

  lemma {:induction false} StaleEventsAre(
      c: Codec, s: Threads, order: seq<string>, now: int, threshold: nat, e: BridgeEvent)
    requires forall id :: id in order ==> id in s
    ensures e in StaleEvents(c, s, order, now, threshold) <==>
              exists id :: id in order && e in CheckOne(c, id, s[id], now, threshold).events
  {
    hide CheckOne;
    if order != [] {
      var front, last := order[..|order| - 1], order[|order| - 1];
      assert forall id :: id in order <==> id in front || id == last;
      StaleEventsAre(c, s, front, now, threshold, e);
    }
  }

  /** Every cached thread is checked so, and what is reported is what the checks of all of them report. */
  lemma {:induction false} CheckedEach(
      c: Codec, max: nat, s: Threads, now: int, threshold: nat, s': Threads, reply: Reply, e: BridgeEvent)
    requires Step(c, max, s, CheckStale(now, threshold), s', reply)
    ensures s'.Keys == s.Keys && forall id :: id in s ==> s'[id] == CheckOne(c, id, s[id], now, threshold).cache
    ensures e in reply.stale <==> exists id :: id in s && e in CheckOne(c, id, s[id], now, threshold).events
  {
    hide CheckOne, StaleEvents;
    var order :| Enumerates(order, s.Keys) && reply.stale == StaleEvents(c, s, order, now, threshold);
    StaleEventsAre(c, s, order, now, threshold, e);
  }

  /** The raw state a change leads to, if its patches apply. */
  function ChangedRaw(s: Threads, id: string, change: Change): Value
    requires change.Patches? ==> id in s
  {
    match change
    case Snapshot(state) => state
    case Patches(patches) => ApplyPatches(s[id].raw, patches).root
  }

  predicate Refused(out: Output) {
    out.NeedsRefresh? || out.Panicked?
  }

  /** The last accepted snapshot or seed of a thread, and all patches accepted since. */
  datatype Source = Source(base: Value, patches: seq<Patch>)

  /** The sources that a log of operations and replies tells, without looking at the cache. */
  function SourcesStep(c: Codec, sources: map<string, Source>, op: BridgeOp, reply: Reply): map<string, Source> {
    match op
    case Process(StreamStateChanged(id, change), _) =>
      if Refused(reply.output) then sources
      else
        (match change
         case Snapshot(state) => sources[id := Source(state, [])]
         case Patches(patches) =>
           if id in sources then sources[id := Source(sources[id].base, sources[id].patches + patches)] else sources)
    case Seed(id, raw, _) => if ProjectState(c, id, raw).Ok? then sources[id := Source(raw, [])] else sources
    case _ => sources
  }

  function Sources(c: Codec, ops: seq<BridgeOp>, replies: seq<Reply>): map<string, Source>
    requires |ops| == |replies|
  {
    if ops == [] then map[]
    else
      var n := |ops| - 1;
      SourcesStep(c, Sources(c, ops[..n], replies[..n]), ops[n], replies[n])
  }

  /** Each cached raw state is its source's base with all accepted patches applied in one batch. */
  ghost predicate FromSources(s: Threads, sources: map<string, Source>) {
    forall id :: id in s ==> FromSource(s, sources, id)
  }

  ghost predicate FromSource(s: Threads, sources: map<string, Source>, id: string)
    requires id in s
  {
    id in sources && ApplyPatches(sources[id].base, sources[id].patches) == Batch(s[id].raw, None)
  }

  lemma {:induction false} FromSourcesStream(
      c: Codec, max: nat, s: Threads, id: string, change: Change, now: int, s': Threads, reply: Reply,
      sources: map<string, Source>)
    requires StreamStep(c, max, s, id, change, now, s', reply.output) && FromSources(s, sources)
    ensures FromSources(s', SourcesStep(c, sources, Process(StreamStateChanged(id, change), now), reply))
  {
    hide ProjectState, InsertTurns, DiffEvents, DiffFits, FirstEvents, HasSynthesizedTurn, ApplyPatches;
    BroadcastAtomic(c, max, s, id, change, now, s', reply.output);
    if !Refused(reply.output) {
      var sources' := SourcesStep(c, sources, Process(StreamStateChanged(id, change), now), reply);
      forall other | other in s' ensures FromSource(s', sources', other) {
        if other != id {
          assert FromSource(s, sources, other);
        } else if change.Patches? {
          assert FromSource(s, sources, id);
          BatchesConcat(sources[id].base, sources[id].patches, change.patches);
        } else {
          EmptyBatch(change.state);
        }
      }
    }
  }

  lemma EmptyBatch(v: Value)
    ensures ApplyPatches(v, []) == Batch(v, None)
  {
  }

  lemma {:induction false} FromSourcesSeed(
      c: Codec, max: nat, s: Threads, id: string, raw: Value, now: int, s': Threads, reply: Reply,
      sources: map<string, Source>)
    requires SeedStep(c, max, s, id, raw, now, s') && FromSources(s, sources)
    ensures FromSources(s', SourcesStep(c, sources, Seed(id, raw, now), reply))
  {
    hide ProjectState, InsertTurns, ApplyPatches;
    EmptyBatch(raw);
    var sources' := SourcesStep(c, sources, Seed(id, raw, now), reply);
    forall other | other in s' ensures FromSource(s', sources', other) {
      assert other in s ==> FromSource(s, sources, other);
    }
  }

  lemma {:induction false} FromSourcesStep(
      c: Codec, max: nat, s: Threads, op: BridgeOp, s': Threads, reply: Reply, sources: map<string, Source>)
    requires Coherent(c, s) && Step(c, max, s, op, s', reply) && FromSources(s, sources)
    ensures FromSources(s', SourcesStep(c, sources, op, reply))
  {
    hide StreamStep, SeedStep, StaleStep, Coherent, ProjectState, ApplyPatches;
    match op
    case Process(StreamStateChanged(id, change), now) =>
      FromSourcesStream(c, max, s, id, change, now, s', reply, sources);
    case Seed(id, raw, now) => FromSourcesSeed(c, max, s, id, raw, now, s', reply, sources);
    case CheckStale(now, threshold) => StaleCheckIdle(c, max, s, now, threshold, s', reply);
    case Reset =>
    case _ =>
      forall other | other in s' ensures FromSource(s', sources, other) {
        assert FromSource(s, sources, other);
      }
  }

  /**
    On every run a cached raw state is the last accepted snapshot or seed with the patches of
    all later accepted broadcasts folded over it; broadcasts that were refused left no trace.
   */
  lemma {:induction false} HistoryOverRuns(c: Codec, max: nat, r: Run, i: nat)
    requires IsRun(c, max, r) && i < |r.states|
    ensures FromSources(r.states[i], Sources(c, r.ops[..i], r.replies[..i]))
  {
    hide Step, Coherent, SourcesStep, FromSource;
    if i > 0 {
      HistoryOverRuns(c, max, r, i - 1);
      CoherentOverRuns(c, max, r, i - 1);
      assert StepAt(c, max, r, i - 1);
      var sources := Sources(c, r.ops[..i - 1], r.replies[..i - 1]);
      FromSourcesStep(c, max, r.states[i - 1], r.ops[i - 1], r.states[i], r.replies[i - 1], sources);
      assert r.ops[..i][..i - 1] == r.ops[..i - 1] && r.replies[..i][..i - 1] == r.replies[..i - 1];
    }
  }

  // ----- A consumer beside the bridge -----

  type Views = map<string, View>

  /** The items of a thread as a consumer holds them after copying the projected state. */
  function CopyItems(turns: seq<Turn>): Items {
    if turns == [] then map[]
    else
      var last := turns[|turns| - 1];
      ReplayItems(CopyItems(turns[..|turns| - 1]), NewItemEvents(last.id, last.items))
  }

  function CopyView(p: Projection): View {
    View(CopyItems(p.thread.turns), p.activeTurnId, p.thread.status, WaitingIds(p))
  }

  /**
    The consumer copies the projected state when a thread first appears, is seeded or is fully
    replaced, and otherwise only replays the events it is sent.
   */
  function Consume(views: Views, s: Threads, op: BridgeOp, s': Threads, reply: Reply): Views {
    match op
    case Process(StreamStateChanged(id, _), _) =>
      (match reply.output
       case Events(_, events) =>
         if id in s then
           if id in views then views[id := ReplayView(views[id], events)] else views
         else if id in s' then views[id := ReplayView(CopyView(s'[id].projection), events)]
         else views
       case FullReplace(_) => if id in s' then views[id := CopyView(s'[id].projection)] else views
       case _ => views)
    case Seed(id, _, _) => if id in s' then views[id := CopyView(s'[id].projection)] else views
    case _ => views
  }

  /** What a consumer shows is the cached projection's: items, active turn, status, no resolved request. */
  ghost predicate Shown(x: Extent, cache: ThreadCache, view: View) {
    var p := cache.projection;
    && ShowsAll(x, view.items, p.thread.turns)
    && view.active == p.activeTurnId
    && view.status == p.thread.status
    && view.waiting <= WaitingIds(p)
  }

  ghost predicate AllShown(x: Extent, s: Threads, views: Views) {
    forall id :: id in s ==> id in views && Shown(x, s[id], views[id])
  }

  /** What the bridge needs for the next diff: text snapshots that are absent or of the cached items. */
  ghost predicate Ready(cache: ThreadCache) {
    SnapshotsAgree(cache.snapshots, cache.projection.thread.turns)
  }

  ghost predicate AllReady(s: Threads) {
    forall id :: id in s ==> Ready(s[id])
  }

  /** Ids are distinct in every projection the operation brings. */
  ghost predicate BringsDistinct(op: BridgeOp, s': Threads, reply: Reply) {
    match op
    case Process(StreamStateChanged(id, _), _) =>
      id in s' && !Refused(reply.output) ==> Distinct(s'[id].projection)
    case Seed(id, _, _) => id in s' ==> Distinct(s'[id].projection)
    case _ => true
  }

  /**
    What the operation must be for its reply to say everything: a diffed update changes the
    items of the active turn only reportably and does not delete the only active turn.
   */
  ghost predicate FullyReported(x: Extent, s: Threads, op: BridgeOp, s': Threads, reply: Reply) {
    match op
    case Process(StreamStateChanged(id, _), _) =>
      id in s && id in s' && reply.output.Events? ==>
        var prev, next := s[id].projection, s'[id].projection;
        && AllReportable(x, prev.thread.turns, next.activeTurnId, next.thread.turns)
        && KeepsActiveTurn(prev, next)
    case _ => true
  }

  /** A full replacement brings no item that the text snapshots left in place misdescribe. */
  ghost predicate ReplacesCleanly(s: Threads, op: BridgeOp, s': Threads, reply: Reply) {
    match op
    case Process(StreamStateChanged(id, _), _) =>
      id in s && id in s' && reply.output.FullReplace? ==>
        SnapshotsAgree(s[id].snapshots, s'[id].projection.thread.turns)
    case _ => true
  }

  // ----- Copies agree -----

  lemma {:induction false} CopyShowsAll(x: Extent, turns: seq<Turn>)
    requires DistinctTurnIds(turns) && DistinctItemIds(turns)
    ensures ShowsAll(x, CopyItems(turns), turns)
  {
    hide ReplayItems, Same, NewItemEvents;
    if turns != [] {
      var front, last := turns[..|turns| - 1], turns[|turns| - 1];
      assert forall t :: t in turns <==> t in front || t == last;
      assert DistinctTurnIds(front) && DistinctItemIds(front);
      CopyShowsAll(x, front);
      DistinctInTurn(turns, |turns| - 1);
      InstallTurn(x, CopyItems(front), last.id, last.items);
      forall t, i | t in front && i in t.items ensures Shows(x, CopyItems(turns), t.id, i) {
        assert t.id != last.id;
        assert !IsKeyOf((t.id, i.id), last.id, last.items);
        assert SameAt(CopyItems(turns), CopyItems(front), (t.id, i.id));
      }
    }
  }

  /** Bootstrapping over a copy of the projection changes nothing that is promised. */
  lemma {:induction false} BootstrapReplay(x: Extent, p: Projection)
    requires Distinct(p) && ActiveListed(p)
    ensures var v := ReplayView(CopyView(p), FirstEvents(p));
            && ShowsAll(x, v.items, p.thread.turns) && v.active == p.activeTurnId
            && v.status == p.thread.status && v.waiting == WaitingIds(p)
  {
    hide CopyItems, NewItemEvents, WaitingIds, FindTurn, Fold, DistinctTurnIds, DistinctItemIds, ShowsAll;
    CopyShowsAll(x, p.thread.turns);
    if p.activeTurnId.None? {
      FoldShort(ApplyToItems, CopyItems(p.thread.turns), []);
      FoldShort(ApplyToActive, p.activeTurnId, []);
      FoldShort(ApplyToStatus, p.thread.status, []);
      FoldShort(ApplyToWaiting, WaitingIds(p), []);
    } else {
      var turn := FindTurn(p.thread.turns, p.activeTurnId.value).value;
      var start, news := [TurnStarted(turn)], NewItemEvents(turn.id, turn.items);
      NewItemEventsTargeted(turn.id, turn.items);
      FoldConcat(ApplyToItems, CopyItems(p.thread.turns), start, news);
      FoldConcat(ApplyToActive, p.activeTurnId, start, news);
      FoldShort(ApplyToItems, CopyItems(p.thread.turns), start);
      FoldShort(ApplyToActive, p.activeTurnId, start);
      FoldIdle(ApplyToActive, p.activeTurnId, news);
      FoldIdle(ApplyToStatus, p.thread.status, start + news);
      FoldIdle(ApplyToWaiting, WaitingIds(p), start + news);
      ReinstallTurn(x, CopyItems(p.thread.turns), p.thread.turns, turn);
    }
  }

  lemma {:induction false} ReinstallTurn(x: Extent, items: Items, turns: seq<Turn>, turn: Turn)
    requires ShowsAll(x, items, turns) && turn in turns && DistinctTurnIds(turns) && DistinctItemIds(turns)
    ensures ShowsAll(x, ReplayItems(items, NewItemEvents(turn.id, turn.items)), turns)
  {
    hide ReplayItems, Same, NewItemEvents;
    var after := ReplayItems(items, NewItemEvents(turn.id, turn.items));
    var a :| 0 <= a < |turns| && turns[a] == turn;
    DistinctInTurn(turns, a);
    InstallTurn(x, items, turn.id, turn.items);
    forall t, i | t in turns && i in t.items ensures Shows(x, after, t.id, i) {
      if t.id == turn.id {
        assert t == turn;
      } else {
        assert !IsKeyOf((t.id, i.id), turn.id, turn.items);
        assert SameAt(after, items, (t.id, i.id));
      }
    }
  }

  /** The active turn of a projected state is found among its turns. */
  lemma ProjectedActiveListed(c: Codec, id: string, raw: Value, p: Projection)
    requires ProjectState(c, id, raw) == Ok(p)
    ensures ActiveListed(p)
  {
    hide ProjectState, FindTurn;
    if p.activeTurnId.Some? {
      ActiveTurnInProgress(c, id, raw);
      var t :| t in p.thread.turns && Some(t.id) == p.activeTurnId;
      assert FindTurn(p.thread.turns, t.id).Some?;
    }
  }

  lemma SnapshotsRecorded(snaps: Snapshots, turns: seq<Turn>)
    requires DistinctItemIds(turns)
    ensures SnapshotsAgree(InsertTurns(snaps, turns), turns)
  {
    hide InsertTurns, SnapshotItem, Lookup, Agrees;
    InsertTurnsRecords(snaps, turns);
    forall t, i | t in turns && i in t.items ensures Agrees(Some(SnapshotItem(i)), i) {
      SnapshotAgrees(i);
    }
  }

  // ----- Staying ready -----

  lemma RecordedIsReady(raw: Value, p: Projection, now: int, snaps: Snapshots)
    requires Distinct(p)
    ensures Ready(ThreadCache(raw, p, now, InsertTurns(snaps, p.thread.turns)))
  {
    hide InsertTurns, SnapshotsAgree, DistinctTurnIds, DistinctItemIds;
    SnapshotsRecorded(snaps, p.thread.turns);
  }

  /** A diff, a first appearance and a seed record the text lengths of every item as it now is. */
  lemma {:induction false} StepRecords(
      c: Codec, max: nat, s: Threads, op: BridgeOp, s': Threads, reply: Reply, id: string, t: Turn, item: ThreadItem)
    requires Step(c, max, s, op, s', reply) && BringsDistinct(op, s', reply) && id in s'
    requires match op
             case Process(StreamStateChanged(changed, _), _) => changed == id && reply.output.Events?
             case Seed(seeded, raw, _) => seeded == id && ProjectState(c, id, raw).Ok?
             case _ => false
    requires t in s'[id].projection.thread.turns && item in t.items
    ensures Lookup(s'[id].snapshots, item.id) == Some(SnapshotItem(item))
  {
    hide StaleStep, ProjectState, Accept, DiffFits, DiffEvents, FirstEvents, InsertTurns, SnapshotItem, Lookup,
      HasSynthesizedTurn, DistinctTurnIds, DistinctItemIds;
    var p := s'[id].projection;
    InsertTurnsRecords(map[], p.thread.turns);
    if id in s {
      InsertTurnsRecords(s[id].snapshots, p.thread.turns);
    }
  }

  /** Diffs, first appearances and seeds refresh the text snapshots; a replacement must bring items they fit. */
  lemma {:induction false} StepKeepsReady(c: Codec, max: nat, s: Threads, op: BridgeOp, s': Threads, reply: Reply)
    requires Coherent(c, s) && AllReady(s) && Step(c, max, s, op, s', reply)
    requires BringsDistinct(op, s', reply) && ReplacesCleanly(s, op, s', reply)
    ensures AllReady(s')
  {
    hide StaleStep, Coherent, Ready, ProjectState, Accept, DiffFits, DiffEvents, FirstEvents, InsertTurns, Distinct,
      HasSynthesizedTurn;
    match op
    case Process(StreamStateChanged(id, change), now) =>
      var accepted := Accept(c, s, id, change);
      if accepted.Some? && id in s' && !Refused(reply.output) {
        var a := accepted.value;
        if reply.output.FullReplace? {
          ReplacedIsReady(s'[id], s[id].snapshots);
        } else {
          RecordedIsReady(a.raw, a.projection, now, if id in s then s[id].snapshots else map[]);
        }
      }
    case Seed(id, raw, now) =>
      if ProjectState(c, id, raw).Ok? && id in s' {
        RecordedIsReady(raw, ProjectState(c, id, raw).value, now, map[]);
      }
    case CheckStale(now, threshold) => StaleCheckIdle(c, max, s, now, threshold, s', reply);
    case _ =>
  }

  lemma ReplacedIsReady(cache: ThreadCache, snaps: Snapshots)
    requires cache.snapshots == snaps && SnapshotsAgree(snaps, cache.projection.thread.turns)
    ensures Ready(cache)
  {
  }

  /** While the text snapshots agree, and all text read is valid, no broadcast panics. */
  lemma {:induction false} ReadyNeverPanics(
      c: Codec, max: nat, s: Threads, id: string, change: Change, now: int, s': Threads, out: Output)
    requires Coherent(c, s) && AllReady(s) && ReadsText(c) && StreamStep(c, max, s, id, change, now, s', out)
    ensures !out.Panicked?
  {
    hide ProjectState, Accept, DiffFits, DiffEvents, FirstEvents, InsertTurns, HasSynthesizedTurn, ReadsText,
      SnapshotsAgree, AllTextsValid;
    var accepted := Accept(c, s, id, change);
    if accepted.Some? && id in s {
      AcceptProjects(c, s, id, change);
      ProjectedTextsValid(c, id, accepted.value.raw);
      ProjectedTextsValid(c, id, s[id].raw);
      assert Ready(s[id]);
      AgreeingDiffFits(s[id].projection, accepted.value.projection, s[id].snapshots);
    }
  }

  // ----- Staying in step -----

  /** A diffed update keeps the consumer in step exactly when the diff says everything. */
  lemma {:induction false} DiffKeepsStep(
      x: Extent, c: Codec, id: string, cache: ThreadCache, a: Accepted, now: int, snaps: Snapshots, view: View)
    requires Shown(x, cache, view) && Ready(cache)
    requires ProjectState(c, id, a.raw) == Ok(a.projection) && Distinct(a.projection)
    ensures Shown(x, ThreadCache(a.raw, a.projection, now, snaps),
                  ReplayView(view, DiffEvents(cache.projection, a.projection, cache.snapshots)))
       <==> && AllReportable(x, cache.projection.thread.turns, a.projection.activeTurnId, a.projection.thread.turns)
            && KeepsActiveTurn(cache.projection, a.projection)
  {
    hide ProjectState, DiffEvents, FindTurn, Fold, ShowsAll, SnapshotsAgree, AllReportable, Distinct, WaitingIds;
    var prev, next := cache.projection, a.projection;
    ProjectedActiveListed(c, id, a.raw, next);
    DiffReplay(x, prev, next, cache.snapshots, view.items);
    LifecycleReplay(prev, next, cache.snapshots);
    StatusReplay(prev, next, cache.snapshots);
    WaitingReplay(prev, next, cache.snapshots, view.waiting);
  }

  /** Copying a cached projection puts the consumer in step. */
  lemma CopyKeepsStep(x: Extent, cache: ThreadCache)
    requires Distinct(cache.projection)
    ensures Shown(x, cache, CopyView(cache.projection))
  {
    hide ShowsAll, CopyItems, DistinctTurnIds, DistinctItemIds;
    CopyShowsAll(x, cache.projection.thread.turns);
  }

  lemma BootstrapKeepsStep(x: Extent, c: Codec, id: string, a: Accepted, now: int)
    requires ProjectState(c, id, a.raw) == Ok(a.projection) && Distinct(a.projection)
    ensures Shown(x, FreshCache(a, now), ReplayView(CopyView(a.projection), FirstEvents(a.projection)))
  {
    hide ProjectState, FirstEvents, InsertTurns, CopyView, ShowsAll, ReplayView, Distinct;
    ProjectedActiveListed(c, id, a.raw, a.projection);
    BootstrapReplay(x, a.projection);
  }

  lemma {:induction false} StreamKeepsStep(
      x: Extent, c: Codec, max: nat, s: Threads, id: string, change: Change, now: int, s': Threads, reply: Reply,
      views: Views)
    requires AllShown(x, s, views) && AllReady(s) && StreamStep(c, max, s, id, change, now, s', reply.output)
    requires BringsDistinct(Process(StreamStateChanged(id, change), now), s', reply)
    ensures AllShown(x, s', Consume(views, s, Process(StreamStateChanged(id, change), now), s', reply))
       <==> FullyReported(x, s, Process(StreamStateChanged(id, change), now), s', reply)
  {
    hide ProjectState, Accept, Shown, DiffEvents, DiffFits, FirstEvents, InsertTurns, CopyView, ReplayView,
      HasSynthesizedTurn, AllReportable, KeepsActiveTurn, Distinct, Ready, FreshCache;
    var accepted := Accept(c, s, id, change);
    if accepted.Some? {
      var a := accepted.value;
      AcceptProjects(c, s, id, change);
      if id !in s {
        if id in s' {
          assert s'[id] == FreshCache(a, now);
          FreshProjection(a, now);
          BootstrapKeepsStep(x, c, id, a, now);
        }
      } else if reply.output.FullReplace? {
        CopyKeepsStep(x, s'[id]);
      } else if reply.output.Events? {
        DiffKeepsStep(x, c, id, s[id], a, now, s'[id].snapshots, views[id]);
      }
    }
  }

  lemma FreshProjection(a: Accepted, now: int)
    ensures FreshCache(a, now).projection == a.projection
  {
  }

  lemma {:induction false} SeedKeepsStep(
      x: Extent, c: Codec, max: nat, s: Threads, id: string, raw: Value, now: int, s': Threads, reply: Reply,
      views: Views)
    requires Coherent(c, s) && AllShown(x, s, views) && SeedStep(c, max, s, id, raw, now, s')
    requires BringsDistinct(Seed(id, raw, now), s', reply)
    ensures AllShown(x, s', Consume(views, s, Seed(id, raw, now), s', reply))
  {
    hide ProjectState, InsertTurns, CopyView, Distinct, ShowsAll, FreshCache, WaitingIds;
    if id in s' {
      CopyKeepsStep(x, s'[id]);
    }
  }

  /** An operation keeps the consumer in step exactly when its reply says everything. */
  lemma {:induction false} StepKeepsStep(
      x: Extent, c: Codec, max: nat, s: Threads, op: BridgeOp, s': Threads, reply: Reply, views: Views)
    requires Coherent(c, s) && AllShown(x, s, views) && AllReady(s)
    requires Step(c, max, s, op, s', reply) && BringsDistinct(op, s', reply)
    ensures AllShown(x, s', Consume(views, s, op, s', reply)) <==> FullyReported(x, s, op, s', reply)
  {
    hide StreamStep, SeedStep, StaleStep, Shown, Coherent, Ready;
    match op
    case Process(StreamStateChanged(id, change), now) =>
      StreamKeepsStep(x, c, max, s, id, change, now, s', reply, views);
    case Seed(id, raw, now) => SeedKeepsStep(x, c, max, s, id, raw, now, s', reply, views);
    case CheckStale(now, threshold) => StaleCheckIdle(c, max, s, now, threshold, s', reply);
    case _ =>
  }

  // ----- Whole runs -----

  /** The views after the first `i` operations of a run. */
  function ViewsAfter(r: Run, i: nat): Views
    requires WellSized(r) && i <= |r.ops|
  {
    if i == 0 then map[]
    else Consume(ViewsAfter(r, i - 1), r.states[i - 1], r.ops[i - 1], r.states[i], r.replies[i - 1])
  }

  ghost predicate ShownAt(x: Extent, r: Run, i: nat)
    requires WellSized(r) && i <= |r.ops|
  {
    AllShown(x, r.states[i], ViewsAfter(r, i))
  }

  ghost predicate ReportedAt(x: Extent, r: Run, i: nat)
    requires WellSized(r) && i < |r.ops|
  {
    FullyReported(x, r.states[i], r.ops[i], r.states[i + 1], r.replies[i])
  }

  ghost predicate CleanAt(r: Run, i: nat)
    requires WellSized(r) && i < |r.ops|
  {
    ReplacesCleanly(r.states[i], r.ops[i], r.states[i + 1], r.replies[i])
  }

  ghost predicate DistinctAt(r: Run, i: nat)
    requires WellSized(r) && i < |r.ops|
  {
    BringsDistinct(r.ops[i], r.states[i + 1], r.replies[i])
  }

  /** A run with distinct ids, whose full replacements up to the `n`th operation are clean. */
  ghost predicate CleanRun(c: Codec, max: nat, r: Run, n: nat) {
    && IsRun(c, max, r) && n <= |r.ops|
    && forall i :: 0 <= i < n ==> DistinctAt(r, i) && CleanAt(r, i)
  }

  /** The text snapshots agree in every state of such a run. */
  lemma {:induction false} ReadyOverRuns(c: Codec, max: nat, r: Run, n: nat)
    requires CleanRun(c, max, r, n)
    ensures AllReady(r.states[n])
  {
    hide Step, Coherent, BringsDistinct, ReplacesCleanly, Ready;
    if n > 0 {
      ReadyOverRuns(c, max, r, n - 1);
      CoherentOverRuns(c, max, r, n - 1);
      assert StepAt(c, max, r, n - 1) && DistinctAt(r, n - 1) && CleanAt(r, n - 1);
      StepKeepsReady(c, max, r.states[n - 1], r.ops[n - 1], r.states[n], r.replies[n - 1]);
    }
  }

  /** So no broadcast of such a run panics, when all text read is valid. */
  lemma {:induction false} NoPanicOverRuns(c: Codec, max: nat, r: Run, n: nat)
    requires CleanRun(c, max, r, n) && n < |r.ops| && ReadsText(c)
    ensures !r.replies[n].output.Panicked?
  {
    hide Coherent, ReadsText, StreamStep, SeedStep, StaleStep, DistinctAt, CleanAt;
    ReadyOverRuns(c, max, r, n);
    CoherentOverRuns(c, max, r, n);
    assert StepAt(c, max, r, n);
    match r.ops[n]
    case Process(StreamStateChanged(id, change), now) =>
      ReadyNeverPanics(c, max, r.states[n], id, change, now, r.states[n + 1], r.replies[n].output);
    case _ =>
  }

  lemma {:induction false} ShownNext(x: Extent, c: Codec, max: nat, r: Run, i: nat)
    requires IsRun(c, max, r) && i < |r.ops| && DistinctAt(r, i) && ShownAt(x, r, i) && AllReady(r.states[i])
    ensures ShownAt(x, r, i + 1) <==> ReportedAt(x, r, i)
  {
    hide Step, Coherent, BringsDistinct, FullyReported, Consume, AllShown, AllReady;
    CoherentOverRuns(c, max, r, i);
    assert StepAt(c, max, r, i);
    StepKeepsStep(x, c, max, r.states[i], r.ops[i], r.states[i + 1], r.replies[i], ViewsAfter(r, i));
    assert ViewsAfter(r, i + 1) ==
      Consume(ViewsAfter(r, i), r.states[i], r.ops[i], r.states[i + 1], r.replies[i]);
  }

  /**
    Whole-run view agreement: on a run with distinct ids and clean replacements, what the
    consumer shows of every cached thread agrees with the cached projection after each of the
    first `n` operations if and only if each of them was fully reported.
   */
  lemma {:induction false} InStepOverRuns(x: Extent, c: Codec, max: nat, r: Run, n: nat)
    requires CleanRun(c, max, r, n)
    ensures (forall i :: 0 <= i <= n ==> ShownAt(x, r, i)) <==> (forall i :: 0 <= i < n ==> ReportedAt(x, r, i))
  {
    hide StepAt, ShownAt, ReportedAt, DistinctAt, CleanAt, AllReady;
    if n == 0 {
      ShownAtStart(x, c, max, r);
    } else {
      InStepOverRuns(x, c, max, r, n - 1);
      assert DistinctAt(r, n - 1);
      ReadyOverRuns(c, max, r, n - 1);
      if forall i :: 0 <= i <= n - 1 ==> ShownAt(x, r, i) {
        ShownNext(x, c, max, r, n - 1);
      }
    }
  }

  lemma ShownAtStart(x: Extent, c: Codec, max: nat, r: Run)
    requires IsRun(c, max, r)
    ensures ShownAt(x, r, 0)
  {
  }

  /**
    End to end: on a fully reported run with distinct ids and clean replacements, the phone
    shows of every cached thread the projection of the desktop's last accepted snapshot (or
    seed) with all patches accepted since folded over it.
   */
  lemma {:induction false} PhoneShowsDesktop(x: Extent, c: Codec, max: nat, r: Run, n: nat, id: string)
    requires CleanRun(c, max, r, n) && id in r.states[n]
    requires forall i :: 0 <= i < n ==> ReportedAt(x, r, i)
    ensures var sources := Sources(c, r.ops[..n], r.replies[..n]);
            && id in sources && id in ViewsAfter(r, n)
            && var batch := ApplyPatches(sources[id].base, sources[id].patches);
               && batch.error.None?
               && ProjectState(c, id, batch.root).Ok?
               && var p, view := ProjectState(c, id, batch.root).value, ViewsAfter(r, n)[id];
                  && ShowsAll(x, view.items, p.thread.turns)
                  && view.active == p.activeTurnId && view.status == p.thread.status
                  && view.waiting <= WaitingIds(p)
  {
    hide StepAt, DistinctAt, CleanAt, ReportedAt, ViewsAfter, Sources, ApplyPatches, ProjectState, ShowsAll, WaitingIds;
    HistoryOverRuns(c, max, r, n);
    CoherentOverRuns(c, max, r, n);
    InStepOverRuns(x, c, max, r, n);
    assert ShownAt(x, r, n);
    assert FromSource(r.states[n], Sources(c, r.ops[..n], r.replies[..n]), id);
  }
}
