/**
  The status and error of turns, which only the events that start and complete a turn carry:
  which of them a consumer that installs those gets to see.
 */
module TurnHeads {
  import opened Wrappers
  import opened Json
  import opened Thread
  import opened ConversationState
  import opened Diff
  import opened Replay
  import opened Bridge
  import opened BridgeRuns

  datatype Head = Head(status: TurnStatus, error: Option<TurnError>)

  type Heads = map<string, Head>

  function HeadOf(t: Turn): Head {
    Head(t.status, t.error)
  }

  function ApplyToHeads(heads: Heads, e: Event): Heads {
    match e
    case TurnStarted(turn) => heads[turn.id := HeadOf(turn)]
    case TurnCompleted(turn) => heads[turn.id := HeadOf(turn)]
    case _ => heads
  }

  /** The heads of all turns, as copied from a projection. */
  function HeadsOf(turns: seq<Turn>): Heads {
    if turns == [] then map[]
    else
      var last := turns[|turns| - 1];
      HeadsOf(turns[..|turns| - 1])[last.id := HeadOf(last)]
  }

  predicate HeadShown(heads: Heads, t: Turn) {
    t.id in heads && heads[t.id] == HeadOf(t)
  }

  /** Is the turn the one that stops or starts being active? */
  predicate Announced(prev: Projection, next: Projection, t: Turn) {
    prev.activeTurnId != next.activeTurnId && Some(t.id) in {prev.activeTurnId, next.activeTurnId}
  }

  ghost predicate HeadKept(prev: seq<Turn>, t: Turn) {
    exists p :: p in prev && p.id == t.id && HeadOf(p) == HeadOf(t)
  }

  lemma {:induction false} HeadsFound(turns: seq<Turn>, t: Turn)
    requires DistinctTurnIds(turns)
    ensures HeadShown(HeadsOf(turns), t) <==> HeadKept(turns, t)
  {
    hide HeadOf;
    if turns != [] {
      var front, last := turns[..|turns| - 1], turns[|turns| - 1];
      assert forall p :: p in turns <==> p in front || p == last;
      assert forall p :: p in front ==> p.id != last.id;
      HeadsFound(front, t);
    }
  }

  lemma {:induction false} FoundByItsId(turns: seq<Turn>, t: Turn)
    requires DistinctTurnIds(turns) && t in turns
    ensures FindTurn(turns, t.id) == Some(t)
  {
    hide FindTurn;
    var found := FindTurn(turns, t.id);
    assert found.Some?;
    var a :| 0 <= a < |turns| && turns[a] == t;
    var b :| 0 <= b < |turns| && turns[b] == found.value;
    assert a == b;
  }

  lemma {:induction false} DiffTouchesHeads(prev: Projection, next: Projection, snaps: Snapshots, heads: Heads)
    ensures Fold(ApplyToHeads, heads, DiffEvents(prev, next, snaps))
         == Fold(ApplyToHeads, heads, LifecycleEvents(prev, next))
  {
    hide DiffEvents, TurnItemEvents, LifecycleEvents, ResolvedEvents, StatusEvents, Fold;
    var a, b, c, d := DiffParts(prev, next, snaps);
    FoldFour(ApplyToHeads, heads, a, b, c, d);
    var after := Fold(ApplyToHeads, heads, a);
    FoldIdle(ApplyToHeads, after, b);
    FoldIdle(ApplyToHeads, after, c);
    FoldIdle(ApplyToHeads, after, d);
  }

  /**
    Which turns show their status and error after a diff: exactly those that stop or start
    being active with it, and those whose status and error are what they were.
   */
  lemma {:induction false} HeadsReplay(prev: Projection, next: Projection, snaps: Snapshots, t: Turn)
    requires DistinctTurnIds(prev.thread.turns) && DistinctTurnIds(next.thread.turns) && t in next.thread.turns
    ensures HeadShown(Fold(ApplyToHeads, HeadsOf(prev.thread.turns), DiffEvents(prev, next, snaps)), t)
       <==> Announced(prev, next, t) || HeadKept(prev.thread.turns, t)
  {
    hide DiffEvents, Fold, FindTurn, HeadOf, HeadsOf, HeadKept, DistinctTurnIds;
    var heads := HeadsOf(prev.thread.turns);
    DiffTouchesHeads(prev, next, snaps, heads);
    FoldShort(ApplyToHeads, heads, LifecycleEvents(prev, next));
    HeadsFound(prev.thread.turns, t);
    FoundByItsId(next.thread.turns, t);
  }

  /** A turn that has completed and later fails: nothing is emitted, and it goes on showing as completed. */
  lemma LateFailureUnseen(snaps: Snapshots)
    ensures var before := Turn("u", [], Completed, None);
            var after := Turn("u", [], Failed, Some(TurnError("lost")));
            var prev := Projection(Thread("t", Idle, [before]), None, [], []);
            var next := Projection(Thread("t", Idle, [after]), None, [], []);
            && DiffEvents(prev, next, snaps) == []
            && HeadShown(HeadsOf(prev.thread.turns), before) && !HeadShown(HeadsOf(prev.thread.turns), after)
  {
    var before := Turn("u", [], Completed, None);
    var after := Turn("u", [], Failed, Some(TurnError("lost")));
    assert [before][..0] == [] && [after][..0] == [];
    assert HeadsOf([before]) == map["u" := HeadOf(before)];
    assert TurnEvents([before], None, after, snaps) == [];
    assert TurnItemEvents([before], None, [after], snaps) == [];
  }

  // ----- Whole runs -----

  type HeadViews = map<string, Heads>

  /** The consumer of `Consume`, holding the heads of turns. */
  function ConsumeHeads(heads: HeadViews, s: Threads, op: BridgeOp, s': Threads, reply: Reply): HeadViews {
    match op
    case Process(StreamStateChanged(id, _), _) =>
      (match reply.output
       case Events(_, events) =>
         if id in s then
           if id in heads then heads[id := Fold(ApplyToHeads, heads[id], events)] else heads
         else if id in s' then heads[id := Fold(ApplyToHeads, HeadsOf(s'[id].projection.thread.turns), events)]
         else heads
       case FullReplace(_) => if id in s' then heads[id := HeadsOf(s'[id].projection.thread.turns)] else heads
       case _ => heads)
    case Seed(id, _, _) => if id in s' then heads[id := HeadsOf(s'[id].projection.thread.turns)] else heads
    case _ => heads
  }

  function HeadsAfter(r: Run, i: nat): HeadViews
    requires WellSized(r) && i <= |r.ops|
  {
    if i == 0 then map[]
    else ConsumeHeads(HeadsAfter(r, i - 1), r.states[i - 1], r.ops[i - 1], r.states[i], r.replies[i - 1])
  }

  /** Does the operation say how the turn stands? It does of all when it is copied, and of one that is announced. */
  predicate Tells(s: Threads, op: BridgeOp, s': Threads, reply: Reply, id: string, turnId: string) {
    id in s' &&
    match op
    case Process(StreamStateChanged(changed, _), _) =>
      && changed == id && !Refused(reply.output)
      && (id !in s || reply.output.FullReplace?
          || (&& s[id].projection.activeTurnId != s'[id].projection.activeTurnId
              && Some(turnId) in {s[id].projection.activeTurnId, s'[id].projection.activeTurnId}
              && FindTurn(s'[id].projection.thread.turns, turnId).Some?))
    case Seed(seeded, _, _) => seeded == id
    case _ => false
  }

  function HeadIn(turns: seq<Turn>, turnId: string): Option<Head> {
    var turn := FindTurn(turns, turnId);
    if turn.Some? then Some(HeadOf(turn.value)) else None
  }

  function HeadHeld(heads: Heads, turnId: string): Option<Head> {
    if turnId in heads then Some(heads[turnId]) else None
  }

  lemma {:induction false} CopiedHeads(turns: seq<Turn>, turnId: string)
    requires DistinctTurnIds(turns)
    ensures HeadHeld(HeadsOf(turns), turnId) == HeadIn(turns, turnId)
  {
    hide FindTurn, HeadOf, HeadsOf;
    var found := FindTurn(turns, turnId);
    if found.Some? {
      HeadsFound(turns, found.value);
    } else {
      NoHead(turns, turnId);
    }
  }

  lemma {:induction false} NoHead(turns: seq<Turn>, turnId: string)
    requires forall t :: t in turns ==> t.id != turnId
    ensures turnId !in HeadsOf(turns)
  {
    hide HeadOf;
    if turns != [] {
      NoHead(turns[..|turns| - 1], turnId);
    }
  }

  /** A diff changes the heads of the turns that stop or start being active, and no others. */
  lemma {:induction false} DiffedHeads(
      prev: Projection, next: Projection, snaps: Snapshots, heads: Heads, turnId: string)
    ensures HeadHeld(Fold(ApplyToHeads, heads, DiffEvents(prev, next, snaps)), turnId) ==
            if && prev.activeTurnId != next.activeTurnId && Some(turnId) in {prev.activeTurnId, next.activeTurnId}
               && FindTurn(next.thread.turns, turnId).Some?
            then HeadIn(next.thread.turns, turnId) else HeadHeld(heads, turnId)
  {
    hide DiffEvents, Fold, FindTurn, HeadOf;
    DiffTouchesHeads(prev, next, snaps, heads);
    FoldShort(ApplyToHeads, heads, LifecycleEvents(prev, next));
  }

  lemma {:induction false} FirstHeads(p: Projection, turnId: string)
    requires Distinct(p)
    ensures HeadHeld(Fold(ApplyToHeads, HeadsOf(p.thread.turns), FirstEvents(p)), turnId)
         == HeadIn(p.thread.turns, turnId)
  {
    hide Fold, FindTurn, HeadOf, HeadsOf, NewItemEvents, DistinctTurnIds, DistinctItemIds;
    var turns := p.thread.turns;
    CopiedHeads(turns, turnId);
    var turn := if p.activeTurnId.Some? then FindTurn(turns, p.activeTurnId.value) else None;
    if turn.Some? {
      var start, news := [TurnStarted(turn.value)], NewItemEvents(turn.value.id, turn.value.items);
      NewItemEventsTargeted(turn.value.id, turn.value.items);
      FoldConcat(ApplyToHeads, HeadsOf(turns), start, news);
      FoldShort(ApplyToHeads, HeadsOf(turns), start);
      FoldIdle(ApplyToHeads, Fold(ApplyToHeads, HeadsOf(turns), start), news);
    } else {
      FoldShort(ApplyToHeads, HeadsOf(turns), []);
    }
  }

  lemma {:induction false} StreamHeads(
      c: Codec, max: nat, s: Threads, op: BridgeOp, s': Threads, reply: Reply, heads: HeadViews, id: string,
      turnId: string)
    requires op.Process? && op.broadcast.StreamStateChanged? && op.broadcast.threadId == id && id in s'
    requires StreamStep(c, max, s, id, op.broadcast.change, op.now, s', reply.output) && BringsDistinct(op, s', reply)
    requires id in s ==> id in heads
    ensures var heads' := ConsumeHeads(heads, s, op, s', reply);
            && id in heads'
            && if Tells(s, op, s', reply, id, turnId)
               then HeadHeld(heads'[id], turnId) == HeadIn(s'[id].projection.thread.turns, turnId)
               else id in heads && HeadHeld(heads'[id], turnId) == HeadHeld(heads[id], turnId)
  {
    hide ProjectState, Accept, DiffEvents, DiffFits, FirstEvents, InsertTurns, HasSynthesizedTurn, Fold, FindTurn,
      HeadsOf, HeadHeld, HeadIn, DistinctTurnIds, DistinctItemIds;
    var accepted := Accept(c, s, id, op.broadcast.change);
    if accepted.Some? {
      var p := accepted.value.projection;
      if id !in s {
        FreshProjection(accepted.value, op.now);
        FirstHeads(p, turnId);
      } else if reply.output.FullReplace? {
        CopiedHeads(p.thread.turns, turnId);
      } else if reply.output.Events? {
        DiffedHeads(s[id].projection, p, s[id].snapshots, heads[id], turnId);
      }
    }
  }

  /** What is held of a turn after an operation: how it stands if the operation tells, and otherwise what was held. */
  lemma {:induction false} HeadsStep(
      c: Codec, max: nat, s: Threads, op: BridgeOp, s': Threads, reply: Reply, heads: HeadViews, id: string,
      turnId: string)
    requires Coherent(c, s) && Step(c, max, s, op, s', reply) && BringsDistinct(op, s', reply)
    requires id in s' && (id in s ==> id in heads)
    ensures var heads' := ConsumeHeads(heads, s, op, s', reply);
            && id in heads'
            && if Tells(s, op, s', reply, id, turnId)
               then HeadHeld(heads'[id], turnId) == HeadIn(s'[id].projection.thread.turns, turnId)
               else id in heads && HeadHeld(heads'[id], turnId) == HeadHeld(heads[id], turnId)
  {
    hide StreamStep, StaleStep, Coherent, ProjectState, InsertTurns, HeadsOf, HeadHeld, HeadIn, FindTurn, Fold,
      DistinctTurnIds, DistinctItemIds;
    match op
    case Process(StreamStateChanged(changed, change), now) =>
      if changed == id {
        StreamHeads(c, max, s, op, s', reply, heads, id, turnId);
      } else {
        BroadcastAtomic(c, max, s, changed, change, now, s', reply.output);
      }
    case Seed(seeded, raw, now) =>
      if seeded == id {
        CopiedHeads(s'[id].projection.thread.turns, turnId);
      }
    case CheckStale(now, threshold) => StaleCheckIdle(c, max, s, now, threshold, s', reply);
    case _ =>
  }

  predicate TellsAt(r: Run, j: nat, id: string, turnId: string)
    requires WellSized(r) && j < |r.ops|
  {
    Tells(r.states[j], r.ops[j], r.states[j + 1], r.replies[j], id, turnId)
  }

  /** The last operation before `n` that told how the turn stands. */
  ghost predicate LastTold(r: Run, n: nat, id: string, turnId: string, j: nat)
    requires WellSized(r) && n <= |r.ops|
  {
    j < n && TellsAt(r, j, id, turnId) && forall k :: j < k < n ==> !TellsAt(r, k, id, turnId)
  }

  lemma LastToldOnce(r: Run, n: nat, id: string, turnId: string, j: nat, k: nat)
    requires WellSized(r) && n <= |r.ops|
    requires LastTold(r, n, id, turnId, j) && LastTold(r, n, id, turnId, k)
    ensures j == k
  {
    hide TellsAt;
  }

  ghost predicate ToldAs(r: Run, j: nat, id: string, turnId: string, head: Option<Head>)
    requires WellSized(r) && j < |r.ops|
  {
    id in r.states[j + 1] && HeadIn(r.states[j + 1][id].projection.thread.turns, turnId) == head
  }

  lemma {:induction false} HeldWasTold(c: Codec, max: nat, r: Run, n: nat, id: string, turnId: string)
    requires IsRun(c, max, r) && n <= |r.ops| && id in r.states[n]
    requires forall i :: 0 <= i < n ==> DistinctAt(r, i)
    ensures id in HeadsAfter(r, n)
    ensures exists j :: LastTold(r, n, id, turnId, j)
              && ToldAs(r, j, id, turnId, HeadHeld(HeadsAfter(r, n)[id], turnId))
  {
    hide Step, Coherent, BringsDistinct, ConsumeHeads, Tells, HeadHeld, HeadIn;
    if n > 0 {
      var m := n - 1;
      CoherentOverRuns(c, max, r, m);
      assert StepAt(c, max, r, m) && DistinctAt(r, m);
      var heads := HeadsAfter(r, m);
      if id in r.states[m] {
        HeldWasTold(c, max, r, m, id, turnId);
      }
      HeadsStep(c, max, r.states[m], r.ops[m], r.states[n], r.replies[m], heads, id, turnId);
      if TellsAt(r, m, id, turnId) {
        assert LastTold(r, n, id, turnId, m);
      } else {
        NotCachedTells(c, max, r.states[m], r.ops[m], r.states[n], r.replies[m], id, turnId);
        var j :| LastTold(r, m, id, turnId, j) && ToldAs(r, j, id, turnId, HeadHeld(heads[id], turnId));
        assert LastTold(r, n, id, turnId, j);
      }
    }
  }

  /** A thread that was not there before is copied. */
  lemma NotCachedTells(
      c: Codec, max: nat, s: Threads, op: BridgeOp, s': Threads, reply: Reply, id: string, turnId: string)
    requires Coherent(c, s) && Step(c, max, s, op, s', reply) && id in s' && !Tells(s, op, s', reply, id, turnId)
    ensures id in s
  {
    hide StaleStep, Coherent, ProjectState, Accept, DiffEvents, DiffFits, FirstEvents, InsertTurns, HasSynthesizedTurn,
      FindTurn;
    if op.CheckStale? {
      StaleCheckIdle(c, max, s, op.now, op.threshold, s', reply);
    }
  }

  /**
    Over runs: a turn shows its status and error at any step exactly if they are what they were
    when it was last copied with its thread, or last stopped or started being active.
   */
  lemma {:induction false} HeadsOverRuns(c: Codec, max: nat, r: Run, n: nat, id: string, t: Turn)
    requires IsRun(c, max, r) && n <= |r.ops| && id in r.states[n] && t in r.states[n][id].projection.thread.turns
    requires forall i :: 0 <= i < n ==> DistinctAt(r, i)
    ensures id in HeadsAfter(r, n)
    ensures HeadShown(HeadsAfter(r, n)[id], t)
       <==> exists j :: LastTold(r, n, id, t.id, j) && ToldAs(r, j, id, t.id, Some(HeadOf(t)))
  {
    hide StepAt, TellsAt, DistinctAt, HeadsAfter, HeadOf, HeadIn;
    HeldWasTold(c, max, r, n, id, t.id);
    var j :| LastTold(r, n, id, t.id, j) && ToldAs(r, j, id, t.id, HeadHeld(HeadsAfter(r, n)[id], t.id));
    forall k | LastTold(r, n, id, t.id, k) ensures k == j {
      LastToldOnce(r, n, id, t.id, j, k);
    }
  }
}
