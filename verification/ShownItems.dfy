/**
  Which items a consumer shows, no more and no less: what a diff adds and never takes away, when
  the bridge asks for a full replacement instead, and what then becomes of items that patches
  put under synthesised turn ids.
 */
module ShownItems {
  import opened Wrappers
  import opened Json
  import opened Thread
  import opened ConversationState
  import opened Diff
  import opened Replay
  import opened EventLog
  import opened Bridge
  import opened BridgeRuns

  /** The consumer holds the items of these turns, and no other. */
  ghost predicate HoldsJust(items: Items, turns: seq<Turn>) {
    forall key :: key in items <==> Named(turns, key)
  }

  // ----- What replaying adds -----

  lemma {:induction false} ReplayKeeps(items: Items, events: seq<Event>, key: ItemKey)
    requires key in items
    ensures key in ReplayItems(items, events)
  {
    if events != [] {
      ReplayKeeps(items, events[..|events| - 1], key);
    }
  }

  lemma {:induction false} ReplayAddsTargets(items: Items, events: seq<Event>, key: ItemKey)
    requires key in ReplayItems(items, events)
    ensures key in items || exists e :: e in events && Target(e) == Some(key)
  {
    hide Target;
    if events != [] {
      var front, last := events[..|events| - 1], events[|events| - 1];
      if key in ReplayItems(items, front) {
        ReplayAddsTargets(items, front, key);
      } else {
        assert last in events && Target(last) == Some(key);
      }
    }
  }

  lemma {:induction false} StartedIsHeld(items: Items, events: seq<Event>, turnId: string, item: ThreadItem)
    requires ItemStarted(turnId, item) in events
    ensures (turnId, item.id) in ReplayItems(items, events)
  {
    var front, last := events[..|events| - 1], events[|events| - 1];
    if ItemStarted(turnId, item) in front {
      StartedIsHeld(items, front, turnId, item);
    } else {
      assert last == ItemStarted(turnId, item);
    }
  }

  lemma {:induction false} ItemTargets(
      turnId: string, active: bool, prev: map<string, ThreadItem>, items: seq<ThreadItem>, snaps: Snapshots, e: Event)
    requires e in ItemEvents(turnId, active, prev, items, snaps)
    ensures Target(e).Some? && IsKeyOf(Target(e).value, turnId, items)
  {
    hide OneItemEvents, Target;
    var front, last := items[..|items| - 1], items[|items| - 1];
    if e in ItemEvents(turnId, active, prev, front, snaps) {
      ItemTargets(turnId, active, prev, front, snaps, e);
    } else {
      OneItemEventsAbout(turnId, active, prev, last, snaps);
      assert last in items;
    }
  }

  lemma {:induction false} TurnTargets(
      prev: seq<Turn>, activeTurnId: Option<string>, next: seq<Turn>, snaps: Snapshots, e: Event)
    requires e in TurnItemEvents(prev, activeTurnId, next, snaps)
    ensures Target(e).Some? && Named(next, Target(e).value)
  {
    hide ItemEvents, Target, PrevItems, IsKeyOf, Named;
    var front, last := next[..|next| - 1], next[|next| - 1];
    if e in TurnItemEvents(prev, activeTurnId, front, snaps) {
      TurnTargets(prev, activeTurnId, front, snaps, e);
      NamedLast(next, Target(e).value);
    } else {
      ItemTargets(last.id, activeTurnId == Some(last.id), PrevItems(prev, last.id), last.items, snaps, e);
      NamedLast(next, Target(e).value);
    }
  }

  /** A diff is about items of the new projection only. */
  lemma {:induction false} DiffAdds(prev: Projection, next: Projection, snaps: Snapshots, items: Items, key: ItemKey)
    requires key in ReplayItems(items, DiffEvents(prev, next, snaps))
    ensures key in items || Named(next.thread.turns, key)
  {
    hide DiffEvents, TurnItemEvents, ReplayItems, Named, Target;
    DiffTouchesItems(prev, next, snaps, items);
    var events := TurnItemEvents(prev.thread.turns, next.activeTurnId, next.thread.turns, snaps);
    ReplayAddsTargets(items, events, key);
    if key !in items {
      var e :| e in events && Target(e) == Some(key);
      TurnTargets(prev.thread.turns, next.activeTurnId, next.thread.turns, snaps, e);
    }
  }

  /** After a diff the consumer holds what it held and the items of the new projection. */
  lemma {:induction false} DiffHolds(prev: Projection, next: Projection, snaps: Snapshots, items: Items, key: ItemKey)
    requires Distinct(prev) && Distinct(next) && (Named(prev.thread.turns, key) ==> key in items)
    ensures key in ReplayItems(items, DiffEvents(prev, next, snaps)) <==> key in items || Named(next.thread.turns, key)
  {
    hide DiffEvents, ReplayItems, Distinct, Listed;
    var events := DiffEvents(prev, next, snaps);
    if key in items {
      ReplayKeeps(items, events, key);
    } else if Named(next.thread.turns, key) {
      var i :| Listed(next.thread.turns, key.0, i) && i.id == key.1;
      StartedExactly(prev, next, snaps, key.0, i);
      StartedIsHeld(items, events, key.0, i);
    } else if key in ReplayItems(items, events) {
      DiffAdds(prev, next, snaps, items, key);
    }
  }

  /** So no diff reports a deletion: just the new items are held exactly if none of the old is gone. */
  lemma {:induction false} DiffHoldsJust(prev: Projection, next: Projection, snaps: Snapshots, items: Items)
    requires Distinct(prev) && Distinct(next) && HoldsJust(items, prev.thread.turns)
    ensures HoldsJust(ReplayItems(items, DiffEvents(prev, next, snaps)), next.thread.turns)
       <==> forall key :: Named(prev.thread.turns, key) ==> Named(next.thread.turns, key)
  {
    hide DiffEvents, ReplayItems, Distinct, Named;
    forall key: ItemKey
      ensures key in ReplayItems(items, DiffEvents(prev, next, snaps)) <==>
                key in items || Named(next.thread.turns, key)
    {
      DiffHolds(prev, next, snaps, items, key);
    }
  }

  // ----- Copies -----

  lemma {:induction false} NewItemTargets(turnId: string, items: seq<ThreadItem>, key: ItemKey)
    ensures (exists e :: e in NewItemEvents(turnId, items) && Target(e) == Some(key)) ==> IsKeyOf(key, turnId, items)
    ensures IsKeyOf(key, turnId, items) ==>
              exists i: ThreadItem :: i.id == key.1 && ItemStarted(turnId, i) in NewItemEvents(turnId, items)
  {
    if items != [] {
      var front, last := items[..|items| - 1], items[|items| - 1];
      assert forall i :: i in items <==> i in front || i == last;
      NewItemTargets(turnId, front, key);
      assert NewItemEvents(turnId, items) ==
        NewItemEvents(turnId, front) + [ItemStarted(turnId, last), ItemCompleted(turnId, last)];
      if key.1 == last.id {
        assert ItemStarted(turnId, last) in NewItemEvents(turnId, items);
      }
    }
  }

  lemma {:induction false} NewItemsHeld(items: Items, turnId: string, news: seq<ThreadItem>, key: ItemKey)
    ensures key in ReplayItems(items, NewItemEvents(turnId, news)) <==> key in items || IsKeyOf(key, turnId, news)
  {
    hide NewItemEvents, ReplayItems, Target, IsKeyOf;
    var events := NewItemEvents(turnId, news);
    NewItemTargets(turnId, news, key);
    if key in items {
      ReplayKeeps(items, events, key);
    } else if IsKeyOf(key, turnId, news) {
      KeyOfTurn(key, turnId, news);
      var i: ThreadItem :| i.id == key.1 && ItemStarted(turnId, i) in events;
      StartedIsHeld(items, events, turnId, i);
    } else if key in ReplayItems(items, events) {
      ReplayAddsTargets(items, events, key);
    }
  }

  lemma KeyOfTurn(key: ItemKey, turnId: string, items: seq<ThreadItem>)
    requires IsKeyOf(key, turnId, items)
    ensures key.0 == turnId
  {
  }

  /** A copy holds just the items of the turns copied. */
  lemma {:induction false} CopyHoldsJust(turns: seq<Turn>)
    ensures HoldsJust(CopyItems(turns), turns)
  {
    hide ReplayItems, NewItemEvents, Named, IsKeyOf;
    if turns == [] {
      NothingNamed();
    } else {
      var front, last := turns[..|turns| - 1], turns[|turns| - 1];
      CopyHoldsJust(front);
      forall key: ItemKey ensures key in CopyItems(turns) <==> Named(turns, key) {
        NewItemsHeld(CopyItems(front), last.id, last.items, key);
        NamedLast(turns, key);
      }
    }
  }

  lemma NothingNamed()
    ensures forall key :: !Named([], key)
  {
  }

  lemma {:induction false} FirstAdds(p: Projection, items: Items, key: ItemKey)
    requires key in ReplayItems(items, FirstEvents(p))
    ensures key in items || Named(p.thread.turns, key)
  {
    hide NewItemEvents, FindTurn, ReplayItems, Fold, Target;
    ReplayAddsTargets(items, FirstEvents(p), key);
    if key !in items {
      var e :| e in FirstEvents(p) && Target(e) == Some(key);
      var turn := FindTurn(p.thread.turns, p.activeTurnId.value).value;
      assert Target(TurnStarted(turn)).None? by {
        StartHasNoTarget(turn);
      }
      assert e in NewItemEvents(turn.id, turn.items);
      NewItemTargets(turn.id, turn.items, key);
      var i :| i in turn.items && i.id == key.1;
      assert Listed(p.thread.turns, key.0, i);
    }
  }

  lemma StartHasNoTarget(turn: Turn)
    ensures Target(TurnStarted(turn)).None?
  {
  }

  // ----- What is answered -----

  /** The events of an accepted change to a cached thread are those of its diff. */
  lemma DiffAnswered(
      c: Codec, max: nat, s: Threads, id: string, change: Change, now: int, s': Threads, out: Output, a: Accepted)
    requires StreamStep(c, max, s, id, change, now, s', out) && Accept(c, s, id, change) == Some(a)
    requires id in s && out.Events?
    ensures out.events == DiffEvents(s[id].projection, a.projection, s[id].snapshots)
  {
    hide Accept, DiffFits, DiffEvents, InsertTurns, HasSynthesizedTurn;
  }

  /** Those of a thread that first appears show its active turn to one who holds nothing. */
  lemma {:induction false} FirstAnswered(
      c: Codec, max: nat, s: Threads, id: string, change: Change, now: int, s': Threads, out: Output, a: Accepted)
    requires StreamStep(c, max, s, id, change, now, s', out) && Accept(c, s, id, change) == Some(a)
    requires id !in s && Distinct(a.projection)
    ensures out.Events?
    ensures a.projection.activeTurnId.None? ==> out.events == []
    ensures forall t :: t in a.projection.thread.turns && a.projection.activeTurnId == Some(t.id) ==>
              && ReplayActive(None, out.events) == Some(t.id)
              && (forall key :: key in ReplayItems(map[], out.events) <==> IsKeyOf(key, t.id, t.items))
              && (forall i :: i in t.items ==> ReplayItems(map[], out.events)[(t.id, i.id)] == i)
  {
    hide Accept, FirstEvents, InsertTurns, Distinct, Fold;
    FirstAppearance(a.projection);
  }

  // ----- Full replacement -----

  /** A full replacement is asked for exactly when the last turn with a synthesised id goes. */
  lemma ReplacedExactly(
      c: Codec, max: nat, s: Threads, id: string, change: Change, now: int, s': Threads, out: Output, a: Accepted)
    requires StreamStep(c, max, s, id, change, now, s', out) && Accept(c, s, id, change) == Some(a)
    ensures out.FullReplace? <==>
              && id in s
              && (exists t :: t in s[id].projection.thread.turns && "ipc-turn-" <= t.id)
              && !(exists t :: t in a.projection.thread.turns && "ipc-turn-" <= t.id)
  {
    hide Accept, DiffFits, DiffEvents, FirstEvents, InsertTurns, Evicted;
  }

  /** Then the consumer afterwards holds just the items of the new projection. */
  lemma {:induction false} ReplacementHoldsJust(
      c: Codec, max: nat, s: Threads, id: string, change: Change, now: int, s': Threads, reply: Reply, views: Views,
      a: Accepted)
    requires StreamStep(c, max, s, id, change, now, s', reply.output) && Accept(c, s, id, change) == Some(a)
    requires id in s && exists t :: t in s[id].projection.thread.turns && "ipc-turn-" <= t.id
    requires forall t :: t in a.projection.thread.turns ==> !("ipc-turn-" <= t.id)
    ensures var views' := Consume(views, s, Process(StreamStateChanged(id, change), now), s', reply);
            id in views' && HoldsJust(views'[id].items, a.projection.thread.turns)
  {
    hide Accept, DiffFits, DiffEvents, FirstEvents, InsertTurns, CopyItems, HoldsJust, HasSynthesizedTurn, WaitingIds;
    ReplacedExactly(c, max, s, id, change, now, s', reply.output, a);
    ReplacedIs(c, max, s, id, change, now, s', reply.output, a);
    CopyHoldsJust(a.projection.thread.turns);
  }

  lemma ReplacedIs(
      c: Codec, max: nat, s: Threads, id: string, change: Change, now: int, s': Threads, out: Output, a: Accepted)
    requires StreamStep(c, max, s, id, change, now, s', out) && Accept(c, s, id, change) == Some(a)
    requires out.FullReplace?
    ensures id in s' && s'[id].projection == a.projection && s'[id].snapshots == s[id].snapshots
  {
    hide Accept, DiffFits, DiffEvents, FirstEvents, InsertTurns, HasSynthesizedTurn;
  }

  // ----- Over runs -----

  /** A turn id that a patched turn without one of its own is given. */
  predicate Synthesized(turnId: string) {
    "ipc-turn-" <= turnId
  }

  ghost predicate HasNone(turns: seq<Turn>) {
    forall t :: t in turns ==> !Synthesized(t.id)
  }

  /** Where the projection has no synthesised turn, none of its items is under one. */
  ghost predicate NoneLeft(s: Threads, views: Views, id: string) {
    id in s ==>
      && id in views
      && (HasNone(s[id].projection.thread.turns) ==>
            forall key: ItemKey :: key in views[id].items ==> !Synthesized(key.0))
  }

  lemma NamedNot(turns: seq<Turn>, key: ItemKey)
    requires HasNone(turns) && Named(turns, key)
    ensures !Synthesized(key.0)
  {
    hide Synthesized;
  }

  lemma {:induction false} CopyNoneLeft(p: Projection, key: ItemKey)
    requires HasNone(p.thread.turns) && key in CopyView(p).items
    ensures !Synthesized(key.0)
  {
    hide CopyItems, Named, HasNone, WaitingIds, Synthesized;
    CopyHoldsJust(p.thread.turns);
    NamedNot(p.thread.turns, key);
  }

  lemma {:induction false} DiffNoneLeft(prev: Projection, next: Projection, snaps: Snapshots, view: View, key: ItemKey)
    requires forall k: ItemKey :: k in view.items ==> !Synthesized(k.0)
    requires HasNone(next.thread.turns)
    requires key in ReplayView(view, DiffEvents(prev, next, snaps)).items
    ensures !Synthesized(key.0)
  {
    hide DiffEvents, Named, HasNone, Synthesized, Fold;
    DiffAdds(prev, next, snaps, view.items, key);
    if key !in view.items {
      NamedNot(next.thread.turns, key);
    }
  }

  lemma {:induction false} FirstNoneLeft(p: Projection, key: ItemKey)
    requires HasNone(p.thread.turns) && key in ReplayView(CopyView(p), FirstEvents(p)).items
    ensures !Synthesized(key.0)
  {
    hide FirstEvents, Named, HasNone, CopyView, Synthesized, Fold;
    FirstAdds(p, CopyView(p).items, key);
    if key in CopyView(p).items {
      CopyNoneLeft(p, key);
    } else {
      NamedNot(p.thread.turns, key);
    }
  }

  /** How the consumer comes by what it shows of a thread that an accepted broadcast changed. */
  lemma StreamConsumed(
      c: Codec, max: nat, s: Threads, id: string, change: Change, now: int, s': Threads, reply: Reply, views: Views)
    requires StreamStep(c, max, s, id, change, now, s', reply.output) && (id in s ==> id in views)
    ensures Refused(reply.output) ==>
              s' == s && Consume(views, s, Process(StreamStateChanged(id, change), now), s', reply) == views
    ensures !Refused(reply.output) && id in s' ==>
              var views' := Consume(views, s, Process(StreamStateChanged(id, change), now), s', reply);
              && Accept(c, s, id, change).Some? && id in views'
              && var p := Accept(c, s, id, change).value.projection;
                 && s'[id].projection == p
                 && views'[id] ==
                    if id !in s then ReplayView(CopyView(p), FirstEvents(p))
                    else if reply.output.FullReplace? then CopyView(p)
                    else ReplayView(views[id], DiffEvents(s[id].projection, p, s[id].snapshots))
  {
    hide Accept, DiffFits, DiffEvents, FirstEvents, InsertTurns, CopyView, ReplayView, HasSynthesizedTurn;
  }

  lemma {:induction false} StreamNoneLeft(
      c: Codec, max: nat, s: Threads, id: string, change: Change, now: int, s': Threads, reply: Reply, views: Views)
    requires StreamStep(c, max, s, id, change, now, s', reply.output) && NoneLeft(s, views, id)
    ensures NoneLeft(s', Consume(views, s, Process(StreamStateChanged(id, change), now), s', reply), id)
  {
    hide Accept, DiffEvents, FirstEvents, CopyView, ReplayView, HasNone, Synthesized, Consume, StreamStep;
    StreamConsumed(c, max, s, id, change, now, s', reply, views);
    if !Refused(reply.output) && id in s' && HasNone(s'[id].projection.thread.turns) {
      var a := Accept(c, s, id, change).value;
      var view := Consume(views, s, Process(StreamStateChanged(id, change), now), s', reply)[id];
      ReplacedExactly(c, max, s, id, change, now, s', reply.output, a);
      SynthesizedAre(a.projection);
      if id in s {
        SynthesizedAre(s[id].projection);
      }
      forall key: ItemKey | key in view.items ensures !Synthesized(key.0) {
        if id !in s {
          FirstNoneLeft(a.projection, key);
        } else if reply.output.FullReplace? {
          CopyNoneLeft(a.projection, key);
        } else {
          DiffNoneLeft(s[id].projection, a.projection, s[id].snapshots, views[id], key);
        }
      }
    }
  }

  lemma SynthesizedAre(p: Projection)
    ensures HasNone(p.thread.turns) <==> !(exists t :: t in p.thread.turns && "ipc-turn-" <= t.id)
  {
  }

  lemma {:induction false} SeedNoneLeft(
      c: Codec, max: nat, s: Threads, id: string, raw: Value, now: int, s': Threads, reply: Reply, views: Views)
    requires SeedStep(c, max, s, id, raw, now, s')
    ensures NoneLeft(s', Consume(views, s, Seed(id, raw, now), s', reply), id)
  {
    hide SeedStep, CopyView, HasNone, Synthesized;
    if id in s' && HasNone(s'[id].projection.thread.turns) {
      forall key: ItemKey | key in CopyView(s'[id].projection).items ensures !Synthesized(key.0) {
        CopyNoneLeft(s'[id].projection, key);
      }
    }
  }

  /** An operation leaves alone the threads and views of all others, but for those it evicts. */
  lemma OthersAlone(
      c: Codec, max: nat, s: Threads, op: BridgeOp, s': Threads, reply: Reply, views: Views, id: string)
    requires Coherent(c, s) && Step(c, max, s, op, s', reply) && id in s'
    requires match op
             case Process(StreamStateChanged(changed, _), _) => changed != id
             case Seed(seeded, _, _) => seeded != id
             case _ => true
    ensures id in s && s'[id] == s[id]
    ensures var views' := Consume(views, s, op, s', reply);
            (id in views' <==> id in views) && (id in views ==> views'[id] == views[id])
  {
    hide StreamStep, StaleStep, Coherent, ProjectState, CopyView, ReplayView, InsertTurns;
    match op
    case Process(StreamStateChanged(changed, change), now) =>
      BroadcastAtomic(c, max, s, changed, change, now, s', reply.output);
    case CheckStale(now, threshold) => StaleCheckIdle(c, max, s, now, threshold, s', reply);
    case _ =>
  }

  lemma {:induction false} StepNoneLeft(
      c: Codec, max: nat, s: Threads, op: BridgeOp, s': Threads, reply: Reply, views: Views, id: string)
    requires Coherent(c, s) && Step(c, max, s, op, s', reply) && NoneLeft(s, views, id)
    ensures NoneLeft(s', Consume(views, s, op, s', reply), id)
  {
    hide StreamStep, SeedStep, StaleStep, Coherent, Consume, HasNone, Synthesized;
    match op
    case Process(StreamStateChanged(changed, change), now) =>
      if changed == id {
        StreamNoneLeft(c, max, s, id, change, now, s', reply, views);
      } else if id in s' {
        OthersAlone(c, max, s, op, s', reply, views, id);
      }
    case Seed(seeded, raw, now) =>
      if seeded == id {
        SeedNoneLeft(c, max, s, id, raw, now, s', reply, views);
      } else if id in s' {
        OthersAlone(c, max, s, op, s', reply, views, id);
      }
    case _ =>
      if id in s' {
        OthersAlone(c, max, s, op, s', reply, views, id);
      }
  }

  /**
    On every run: once a cached thread has no turn with a synthesised id, the consumer shows no
    item under one.
   */
  lemma {:induction false} NoneLeftOverRuns(c: Codec, max: nat, r: Run, n: nat, id: string)
    requires IsRun(c, max, r) && n <= |r.ops|
    ensures NoneLeft(r.states[n], ViewsAfter(r, n), id)
  {
    hide Step, Coherent, NoneLeft, Consume;
    if n == 0 {
      NoneLeftAtStart(c, max, r, id);
    } else {
      NoneLeftOverRuns(c, max, r, n - 1, id);
      CoherentOverRuns(c, max, r, n - 1);
      assert StepAt(c, max, r, n - 1);
      StepNoneLeft(c, max, r.states[n - 1], r.ops[n - 1], r.states[n], r.replies[n - 1], ViewsAfter(r, n - 1), id);
    }
  }

  lemma NoneLeftAtStart(c: Codec, max: nat, r: Run, id: string)
    requires IsRun(c, max, r)
    ensures NoneLeft(r.states[0], ViewsAfter(r, 0), id)
  {
  }
}
