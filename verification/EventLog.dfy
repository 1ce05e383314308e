/**
  What a diff and a first appearance say, event by event and in which order: the account of
  each item, of the turns that start and complete, of the requests that are gone. It is told
  over the turns and requests of the two projections, and asks no consumer.
 */
module EventLog {
  import opened Wrappers
  import opened Thread
  import opened Diff
  import opened Replay

  // ----- The log of one item -----

  /** The events about one item, in order. */
  function OfItem(key: ItemKey, events: seq<Event>): seq<Event> {
    if events == [] then []
    else
      var n := |events| - 1;
      OfItem(key, events[..n]) + if Target(events[n]) == Some(key) then [events[n]] else []
  }

  lemma {:induction false} OfItemConcat(key: ItemKey, a: seq<Event>, b: seq<Event>)
    ensures OfItem(key, a + b) == OfItem(key, a) + OfItem(key, b)
  {
    hide Target;
    if b == [] {
      assert a + b == a;
    } else {
      assert (a + b)[..|a + b| - 1] == a + b[..|b| - 1];
      OfItemConcat(key, a, b[..|b| - 1]);
    }
  }

  lemma {:induction false} OfItemAll(key: ItemKey, events: seq<Event>)
    requires About(key, events)
    ensures OfItem(key, events) == events
  {
    hide Target;
    if events != [] {
      OfItemAll(key, events[..|events| - 1]);
    }
  }

  lemma {:induction false} OfItemNone(key: ItemKey, events: seq<Event>)
    requires forall e :: e in events ==> Target(e) != Some(key)
    ensures OfItem(key, events) == []
  {
    hide Target;
    if events != [] {
      OfItemNone(key, events[..|events| - 1]);
    }
  }

  lemma OfItemHas(key: ItemKey, events: seq<Event>, e: Event)
    requires Target(e) == Some(key)
    ensures e in OfItem(key, events) <==> e in events
  {
    hide Target;
    if events != [] {
      OfItemHas(key, events[..|events| - 1], e);
    }
  }

  /** Is the item in a turn of that id? */
  ghost predicate Listed(turns: seq<Turn>, turnId: string, item: ThreadItem) {
    exists t :: t in turns && t.id == turnId && item in t.items
  }

  /** Has a turn of that id an item of that id? */
  ghost predicate Named(turns: seq<Turn>, key: ItemKey) {
    exists i :: Listed(turns, key.0, i) && i.id == key.1
  }

  lemma OneItemLog(
      turnId: string, active: bool, prev: map<string, ThreadItem>, item: ThreadItem, snaps: Snapshots, key: ItemKey)
    ensures OfItem(key, OneItemEvents(turnId, active, prev, item, snaps)) ==
            if key == (turnId, item.id) then OneItemEvents(turnId, active, prev, item, snaps) else []
  {
    hide OneItemEvents, Target;
    OneItemEventsAbout(turnId, active, prev, item, snaps);
    if key == (turnId, item.id) {
      OfItemAll(key, OneItemEvents(turnId, active, prev, item, snaps));
    } else {
      OfItemNone(key, OneItemEvents(turnId, active, prev, item, snaps));
    }
  }

  lemma {:induction false} ItemsLog(
      turnId: string, active: bool, prev: map<string, ThreadItem>, items: seq<ThreadItem>, snaps: Snapshots,
      key: ItemKey)
    requires DistinctIn(items)
    ensures forall i :: i in items && key == (turnId, i.id) ==>
              OfItem(key, ItemEvents(turnId, active, prev, items, snaps))
              == OneItemEvents(turnId, active, prev, i, snaps)
    ensures !IsKeyOf(key, turnId, items) ==> OfItem(key, ItemEvents(turnId, active, prev, items, snaps)) == []
  {
    hide OneItemEvents, OfItem;
    if items == [] {
      OfItemNone(key, []);
    } else {
      var front, last := items[..|items| - 1], items[|items| - 1];
      assert forall i :: i in items <==> i in front || i == last;
      assert forall i :: i in front ==> i.id != last.id;
      ItemsLog(turnId, active, prev, front, snaps, key);
      OneItemLog(turnId, active, prev, last, snaps, key);
      OfItemConcat(key, ItemEvents(turnId, active, prev, front, snaps),
                   OneItemEvents(turnId, active, prev, last, snaps));
      if key == (turnId, last.id) {
        assert !IsKeyOf(key, turnId, front);
      } else if IsKeyOf(key, turnId, front) {
        assert IsKeyOf(key, turnId, items);
      }
    }
  }

  lemma TurnLog(prev: seq<Turn>, activeTurnId: Option<string>, turn: Turn, snaps: Snapshots, key: ItemKey)
    requires DistinctIn(turn.items)
    ensures forall i :: i in turn.items && key == (turn.id, i.id) ==>
              OfItem(key, TurnEvents(prev, activeTurnId, turn, snaps))
              == OneItemEvents(turn.id, activeTurnId == Some(turn.id), PrevItems(prev, turn.id), i, snaps)
    ensures !IsKeyOf(key, turn.id, turn.items) ==> OfItem(key, TurnEvents(prev, activeTurnId, turn, snaps)) == []
  {
    hide OneItemEvents, OfItem, ItemEvents, PrevItems, DistinctIn;
    ItemsLog(turn.id, activeTurnId == Some(turn.id), PrevItems(prev, turn.id), turn.items, snaps, key);
  }

  lemma {:induction false} TurnsLog(
      prev: seq<Turn>, activeTurnId: Option<string>, next: seq<Turn>, snaps: Snapshots, key: ItemKey)
    requires DistinctTurnIds(next) && forall t :: t in next ==> DistinctIn(t.items)
    ensures forall t, i :: t in next && i in t.items && key == (t.id, i.id) ==>
              OfItem(key, TurnItemEvents(prev, activeTurnId, next, snaps))
              == OneItemEvents(t.id, activeTurnId == Some(t.id), PrevItems(prev, t.id), i, snaps)
    ensures !Named(next, key) ==> OfItem(key, TurnItemEvents(prev, activeTurnId, next, snaps)) == []
  {
    hide OneItemEvents, OfItem, TurnEvents, PrevItems, DistinctIn;
    if next == [] {
      OfItemNone(key, []);
    } else {
      var front, last := next[..|next| - 1], next[|next| - 1];
      assert forall t :: t in next <==> t in front || t == last;
      assert DistinctTurnIds(front) && forall t :: t in front ==> t.id != last.id;
      TurnsLog(prev, activeTurnId, front, snaps, key);
      TurnLog(prev, activeTurnId, last, snaps, key);
      OfItemConcat(key, TurnItemEvents(prev, activeTurnId, front, snaps), TurnEvents(prev, activeTurnId, last, snaps));
      if IsKeyOf(key, last.id, last.items) {
        assert !Named(front, key);
        var i :| i in last.items && i.id == key.1;
        assert Listed(next, key.0, i);
      } else if Named(front, key) {
        var i :| Listed(front, key.0, i) && i.id == key.1;
        assert Listed(next, key.0, i);
      }
    }
  }

  lemma {:induction false} DiffLog(prev: Projection, next: Projection, snaps: Snapshots, key: ItemKey)
    ensures OfItem(key, DiffEvents(prev, next, snaps))
         == OfItem(key, TurnItemEvents(prev.thread.turns, next.activeTurnId, next.thread.turns, snaps))
  {
    hide DiffEvents, TurnItemEvents, LifecycleEvents, ResolvedEvents, StatusEvents, OfItem;
    var a, b, c, d := DiffParts(prev, next, snaps);
    OfItemNone(key, a);
    OfItemNone(key, c);
    OfItemNone(key, d);
    OfItemConcat(key, a, b);
    OfItemConcat(key, a + b, c);
    OfItemConcat(key, a + b + c, d);
  }

  lemma DistinctEach(turns: seq<Turn>)
    requires DistinctItemIds(turns)
    ensures forall t :: t in turns ==> DistinctIn(t.items)
  {
    hide DistinctItemIds, DistinctIn;
    forall t | t in turns ensures DistinctIn(t.items) {
      var a :| 0 <= a < |turns| && turns[a] == t;
      DistinctInTurn(turns, a);
    }
  }

  /**
    All that a diff says of an item: a new one is started and completed, an unchanged one is
    not mentioned, a changed one is completed again, and only in the active turn is told by
    the difference of the two.
   */
  lemma {:induction false} ItemLog(
      prev: Projection, next: Projection, snaps: Snapshots, turnId: string, item: ThreadItem)
    requires Distinct(prev) && Distinct(next) && Listed(next.thread.turns, turnId, item)
    ensures !Named(prev.thread.turns, (turnId, item.id)) ==>
              OfItem((turnId, item.id), DiffEvents(prev, next, snaps))
              == [ItemStarted(turnId, item), ItemCompleted(turnId, item)]
    ensures forall was :: Listed(prev.thread.turns, turnId, was) && was.id == item.id ==>
              OfItem((turnId, item.id), DiffEvents(prev, next, snaps)) ==
              if was == item then []
              else if next.activeTurnId != Some(turnId) then [ItemCompleted(turnId, item)]
              else ItemDiff(turnId, was, item, Lookup(snaps, item.id))
  {
    hide DiffEvents, TurnItemEvents, ItemDiff, DistinctTurnIds, DistinctItemIds, DistinctIn, PrevItems, OfItem;
    var key := (turnId, item.id);
    DiffLog(prev, next, snaps, key);
    DistinctEach(next.thread.turns);
    TurnsLog(prev.thread.turns, next.activeTurnId, next.thread.turns, snaps, key);
    forall was | Listed(prev.thread.turns, turnId, was) && was.id == item.id
      ensures item.id in PrevItems(prev.thread.turns, turnId) && PrevItems(prev.thread.turns, turnId)[item.id] == was
    {
      var t :| t in prev.thread.turns && t.id == turnId && was in t.items;
      PrevItemFound(prev, t, was);
    }
    PrevItemNamed(prev.thread.turns, turnId, item.id);
  }

  lemma PrevItemNamed(turns: seq<Turn>, turnId: string, id: string)
    ensures id in PrevItems(turns, turnId) ==> Named(turns, (turnId, id))
  {
    hide ItemsById, TurnsById;
    if id in PrevItems(turns, turnId) {
      var t := TurnsById(turns)[turnId];
      assert t in turns;
      assert Listed(turns, turnId, ItemsById(t.items)[id]);
    }
  }

  /** And of an item that is gone, or never was, it says nothing. */
  lemma {:induction false} NoItemLog(prev: Projection, next: Projection, snaps: Snapshots, key: ItemKey)
    requires Distinct(next) && !Named(next.thread.turns, key)
    ensures OfItem(key, DiffEvents(prev, next, snaps)) == []
  {
    hide DiffEvents, TurnItemEvents, DistinctTurnIds, DistinctItemIds, DistinctIn, OfItem, Named;
    DiffLog(prev, next, snaps, key);
    DistinctEach(next.thread.turns);
    TurnsLog(prev.thread.turns, next.activeTurnId, next.thread.turns, snaps, key);
  }

  /** An item is announced as started if and only if its turn did not have it. */
  lemma {:induction false} StartedExactly(
      prev: Projection, next: Projection, snaps: Snapshots, turnId: string, item: ThreadItem)
    requires Distinct(prev) && Distinct(next)
    ensures ItemStarted(turnId, item) in DiffEvents(prev, next, snaps)
       <==> Listed(next.thread.turns, turnId, item) && !Named(prev.thread.turns, (turnId, item.id))
  {
    hide DiffEvents, Distinct, ItemDiff, OfItem, Listed;
    var key, e := (turnId, item.id), ItemStarted(turnId, item);
    OfItemHas(key, DiffEvents(prev, next, snaps), e);
    if !Named(next.thread.turns, key) {
      NoItemLog(prev, next, snaps, key);
    } else {
      var i :| Listed(next.thread.turns, turnId, i) && i.id == item.id;
      ItemLog(prev, next, snaps, turnId, i);
      if Named(prev.thread.turns, key) {
        var was :| Listed(prev.thread.turns, turnId, was) && was.id == item.id;
        NeverStarts(turnId, was, i, Lookup(snaps, item.id), e);
      }
      ListedOnce(next, turnId, i, item);
    }
  }

  lemma ListedOnce(p: Projection, turnId: string, a: ThreadItem, b: ThreadItem)
    requires Distinct(p) && Listed(p.thread.turns, turnId, a) && a.id == b.id
    ensures Listed(p.thread.turns, turnId, b) <==> a == b
  {
    hide PrevItems;
    if Listed(p.thread.turns, turnId, b) {
      var s :| s in p.thread.turns && s.id == turnId && a in s.items;
      var t :| t in p.thread.turns && t.id == turnId && b in t.items;
      PrevItemFound(p, s, a);
      PrevItemFound(p, t, b);
    }
  }

  /** The difference of two items never starts one. */
  lemma NeverStarts(turnId: string, prev: ThreadItem, next: ThreadItem, snap: Option<ItemTextSnapshot>, e: Event)
    requires e.ItemStarted?
    ensures e !in ItemDiff(turnId, prev, next, snap)
  {
    hide Growth, SummaryEvents, ThoughtEvents;
    if prev.Reasoning? && next.Reasoning? {
      PartsNeverInstall(turnId, next.id, prev.summary, next.summary, SummaryLens(snap), |next.summary|, e);
      PartsNeverInstall(turnId, next.id, prev.thoughts, next.thoughts, ThoughtLens(snap), |next.thoughts|, e);
    }
  }

  lemma PartNeverInstalls(
      turnId: string, id: string, prev: seq<Text>, next: seq<Text>, lens: Option<seq<nat>>, i: nat, e: Event)
    requires (e.ItemStarted? || e.ItemCompleted?) && i < |next|
    ensures e !in SummaryPartEvents(turnId, id, prev, next, lens, i)
    ensures e !in ThoughtPartEvents(turnId, id, prev, next, lens, i)
  {
    hide Growth, LengthAt;
  }

  lemma {:induction false} PartsNeverInstall(
      turnId: string, id: string, prev: seq<Text>, next: seq<Text>, lens: Option<seq<nat>>, n: nat, e: Event)
    requires (e.ItemStarted? || e.ItemCompleted?) && n <= |next|
    ensures e !in SummaryEvents(turnId, id, prev, next, lens, n)
    ensures e !in ThoughtEvents(turnId, id, prev, next, lens, n)
  {
    hide SummaryPartEvents, ThoughtPartEvents;
    if n > 0 {
      PartsNeverInstall(turnId, id, prev, next, lens, n - 1, e);
      PartNeverInstalls(turnId, id, prev, next, lens, n - 1, e);
    }
  }

  // ----- The order of items -----

  /** Every start is followed at once by the completion of the same item. */
  ghost predicate StartsComplete(events: seq<Event>) {
    forall k :: 0 <= k < |events| && events[k].ItemStarted? ==>
      k + 1 < |events| && events[k + 1] == ItemCompleted(events[k].turnId, events[k].item)
  }

  lemma StartsCompleteConcat(a: seq<Event>, b: seq<Event>)
    requires StartsComplete(a) && StartsComplete(b)
    ensures StartsComplete(a + b)
  {
    var all := a + b;
    forall k | 0 <= k < |all| && all[k].ItemStarted?
      ensures k + 1 < |all| && all[k + 1] == ItemCompleted(all[k].turnId, all[k].item)
    {
      if k < |a| {
        assert a[k].ItemStarted? && all[k + 1] == a[k + 1];
      } else {
        assert b[k - |a|].ItemStarted? && all[k + 1] == b[k - |a| + 1];
      }
    }
  }

  lemma NoStartsComplete(events: seq<Event>)
    requires forall e :: e in events ==> !e.ItemStarted?
    ensures StartsComplete(events)
  {
  }

  lemma OneItemStartsComplete(
      turnId: string, active: bool, prev: map<string, ThreadItem>, item: ThreadItem, snaps: Snapshots)
    ensures StartsComplete(OneItemEvents(turnId, active, prev, item, snaps))
  {
    hide ItemDiff;
    if active && item.id in prev && prev[item.id] != item {
      var events := ItemDiff(turnId, prev[item.id], item, Lookup(snaps, item.id));
      forall e | e in events ensures !e.ItemStarted? {
        if e.ItemStarted? {
          NeverStarts(turnId, prev[item.id], item, Lookup(snaps, item.id), e);
        }
      }
      NoStartsComplete(events);
    }
  }

  lemma {:induction false} ItemsStartComplete(
      turnId: string, active: bool, prev: map<string, ThreadItem>, items: seq<ThreadItem>, snaps: Snapshots)
    ensures StartsComplete(ItemEvents(turnId, active, prev, items, snaps))
  {
    hide OneItemEvents;
    if items != [] {
      var front, last := items[..|items| - 1], items[|items| - 1];
      ItemsStartComplete(turnId, active, prev, front, snaps);
      OneItemStartsComplete(turnId, active, prev, last, snaps);
      StartsCompleteConcat(ItemEvents(turnId, active, prev, front, snaps),
                           OneItemEvents(turnId, active, prev, last, snaps));
    }
  }

  lemma {:induction false} TurnsStartComplete(
      prev: seq<Turn>, activeTurnId: Option<string>, next: seq<Turn>, snaps: Snapshots)
    ensures StartsComplete(TurnItemEvents(prev, activeTurnId, next, snaps))
  {
    hide ItemEvents, PrevItems;
    if next != [] {
      var front, last := next[..|next| - 1], next[|next| - 1];
      TurnsStartComplete(prev, activeTurnId, front, snaps);
      ItemsStartComplete(last.id, activeTurnId == Some(last.id), PrevItems(prev, last.id), last.items, snaps);
      StartsCompleteConcat(TurnItemEvents(prev, activeTurnId, front, snaps),
                           TurnEvents(prev, activeTurnId, last, snaps));
    }
  }

  /** A diff completes what it starts, at once. */
  lemma {:induction false} DiffStartsComplete(prev: Projection, next: Projection, snaps: Snapshots)
    ensures StartsComplete(DiffEvents(prev, next, snaps))
  {
    hide DiffEvents, TurnItemEvents, LifecycleEvents, ResolvedEvents, StatusEvents, StartsComplete;
    var a, b, c, d := DiffParts(prev, next, snaps);
    TurnsStartComplete(prev.thread.turns, next.activeTurnId, next.thread.turns, snaps);
    NoStartsComplete(a);
    NoStartsComplete(c);
    NoStartsComplete(d);
    StartsCompleteConcat(a, b);
    StartsCompleteConcat(a + b, c);
    StartsCompleteConcat(a + b + c, d);
  }

  function TurnKeys(turnId: string, items: seq<ThreadItem>): seq<ItemKey> {
    if items == [] then []
    else TurnKeys(turnId, items[..|items| - 1]) + [(turnId, items[|items| - 1].id)]
  }

  /** The items of a thread, turn by turn. */
  function Keys(turns: seq<Turn>): seq<ItemKey> {
    if turns == [] then []
    else Keys(turns[..|turns| - 1]) + TurnKeys(turns[|turns| - 1].id, turns[|turns| - 1].items)
  }

  /** The logs of several items, one after the other. */
  function Gather(keys: seq<ItemKey>, events: seq<Event>): seq<Event> {
    if keys == [] then []
    else Gather(keys[..|keys| - 1], events) + OfItem(keys[|keys| - 1], events)
  }

  lemma {:induction false} GatherConcat(a: seq<ItemKey>, b: seq<ItemKey>, events: seq<Event>)
    ensures Gather(a + b, events) == Gather(a, events) + Gather(b, events)
  {
    hide OfItem;
    if b == [] {
      assert a + b == a;
    } else {
      assert (a + b)[..|a + b| - 1] == a + b[..|b| - 1];
      GatherConcat(a, b[..|b| - 1], events);
    }
  }

  lemma {:induction false} GatherSame(keys: seq<ItemKey>, a: seq<Event>, b: seq<Event>)
    requires forall key :: key in keys ==> OfItem(key, a) == OfItem(key, b)
    ensures Gather(keys, a) == Gather(keys, b)
  {
    hide OfItem;
    if keys != [] {
      GatherSame(keys[..|keys| - 1], a, b);
    }
  }

  lemma {:induction false} TurnKeysAre(turnId: string, items: seq<ThreadItem>)
    ensures forall key: ItemKey :: key in TurnKeys(turnId, items) <==> IsKeyOf(key, turnId, items)
  {
    if items != [] {
      var front, last := items[..|items| - 1], items[|items| - 1];
      assert forall i :: i in items <==> i in front || i == last;
      TurnKeysAre(turnId, front);
    }
  }

  lemma OtherItemsBefore(
      turnId: string, active: bool, prev: map<string, ThreadItem>, front: seq<ThreadItem>, last: ThreadItem,
      snaps: Snapshots, key: ItemKey)
    requires forall i :: i in front ==> i.id != last.id
    requires key in TurnKeys(turnId, front)
    ensures var before := ItemEvents(turnId, active, prev, front, snaps);
            OfItem(key, before + OneItemEvents(turnId, active, prev, last, snaps)) == OfItem(key, before)
  {
    hide OneItemEvents, OfItem, ItemEvents, TurnKeys;
    TurnKeysAre(turnId, front);
    OfItemConcat(key, ItemEvents(turnId, active, prev, front, snaps), OneItemEvents(turnId, active, prev, last, snaps));
    OneItemLog(turnId, active, prev, last, snaps, key);
  }

  /** An item's events come together, and in the order of the items. */
  lemma {:induction false} ItemsInOrder(
      turnId: string, active: bool, prev: map<string, ThreadItem>, items: seq<ThreadItem>, snaps: Snapshots)
    requires DistinctIn(items)
    ensures var events := ItemEvents(turnId, active, prev, items, snaps);
            Gather(TurnKeys(turnId, items), events) == events
  {
    hide OneItemEvents, OfItem, Gather;
    if items == [] {
      GatherNone([]);
    } else {
      var front, last := items[..|items| - 1], items[|items| - 1];
      assert forall i :: i in front ==> i in items && i.id != last.id;
      var before, one := ItemEvents(turnId, active, prev, front, snaps),
        OneItemEvents(turnId, active, prev, last, snaps);
      var keys, key := TurnKeys(turnId, front), (turnId, last.id);
      ItemsInOrder(turnId, active, prev, front, snaps);
      forall k | k in keys ensures OfItem(k, before + one) == OfItem(k, before) {
        OtherItemsBefore(turnId, active, prev, front, last, snaps, k);
      }
      GatherSame(keys, before + one, before);
      ItemsLog(turnId, active, prev, items, snaps, key);
      GatherOneMore(keys, key, before + one);
    }
  }

  lemma GatherNone(events: seq<Event>)
    ensures Gather([], events) == []
  {
  }

  lemma GatherOneMore(keys: seq<ItemKey>, key: ItemKey, events: seq<Event>)
    ensures Gather(keys + [key], events) == Gather(keys, events) + OfItem(key, events)
  {
    hide OfItem;
    assert (keys + [key])[..|keys|] == keys;
  }

  lemma {:induction false} KeysAre(turns: seq<Turn>)
    ensures forall key: ItemKey :: key in Keys(turns) <==> Named(turns, key)
  {
    if turns != [] {
      var front, last := turns[..|turns| - 1], turns[|turns| - 1];
      KeysAre(front);
      TurnKeysAre(last.id, last.items);
      forall key: ItemKey ensures Named(turns, key) <==> Named(front, key) || IsKeyOf(key, last.id, last.items) {
        NamedLast(turns, key);
      }
    }
  }

  lemma NamedLast(turns: seq<Turn>, key: ItemKey)
    requires turns != []
    ensures var front, last := turns[..|turns| - 1], turns[|turns| - 1];
            Named(turns, key) <==> Named(front, key) || IsKeyOf(key, last.id, last.items)
  {
    var front, last := turns[..|turns| - 1], turns[|turns| - 1];
    assert forall t :: t in turns <==> t in front || t == last;
    forall i ensures Listed(turns, key.0, i) <==> Listed(front, key.0, i) || (key.0 == last.id && i in last.items) {
    }
    if IsKeyOf(key, last.id, last.items) {
      var i :| i in last.items && i.id == key.1;
      assert Listed(turns, key.0, i);
    } else if Named(front, key) {
      var i :| Listed(front, key.0, i) && i.id == key.1;
      assert Listed(turns, key.0, i);
    }
  }

  lemma {:induction false} TurnsInOrder(
      prev: seq<Turn>, activeTurnId: Option<string>, next: seq<Turn>, snaps: Snapshots)
    requires DistinctTurnIds(next) && forall t :: t in next ==> DistinctIn(t.items)
    ensures var events := TurnItemEvents(prev, activeTurnId, next, snaps);
            Gather(Keys(next), events) == events
  {
    hide OfItem, TurnEvents, PrevItems, DistinctIn, TurnKeys, Named, IsKeyOf;
    if next != [] {
      var front, last := next[..|next| - 1], next[|next| - 1];
      assert forall t :: t in next <==> t in front || t == last;
      assert DistinctTurnIds(front) && forall t :: t in front ==> t.id != last.id;
      var before, one := TurnItemEvents(prev, activeTurnId, front, snaps), TurnEvents(prev, activeTurnId, last, snaps);
      var keys, more := Keys(front), TurnKeys(last.id, last.items);
      TurnsInOrder(prev, activeTurnId, front, snaps);
      OneTurnInOrder(prev, activeTurnId, last, snaps);
      KeysAre(front);
      TurnKeysAre(last.id, last.items);
      forall k | k in keys || k in more
        ensures OfItem(k, before + one) == if k in keys then OfItem(k, before) else OfItem(k, one)
        ensures !(k in keys && k in more)
      {
        KeyApart(front, last, k);
        OfItemConcat(k, before, one);
        TurnLog(prev, activeTurnId, last, snaps, k);
        TurnsLog(prev, activeTurnId, front, snaps, k);
      }
      GatherSame(keys, before + one, before);
      GatherSame(more, before + one, one);
      GatherConcat(keys, more, before + one);
    }
  }

  lemma KeyApart(front: seq<Turn>, last: Turn, key: ItemKey)
    requires forall t :: t in front ==> t.id != last.id
    ensures !(Named(front, key) && IsKeyOf(key, last.id, last.items))
  {
  }

  lemma OneTurnInOrder(prev: seq<Turn>, activeTurnId: Option<string>, turn: Turn, snaps: Snapshots)
    requires DistinctIn(turn.items)
    ensures var events := TurnEvents(prev, activeTurnId, turn, snaps);
            Gather(TurnKeys(turn.id, turn.items), events) == events
  {
    hide ItemEvents, PrevItems, DistinctIn, Gather, TurnKeys;
    ItemsInOrder(turn.id, activeTurnId == Some(turn.id), PrevItems(prev, turn.id), turn.items, snaps);
  }

  /** The events about items, in order. */
  function OfItems(events: seq<Event>): seq<Event> {
    if events == [] then []
    else
      var n := |events| - 1;
      OfItems(events[..n]) + if Target(events[n]).Some? then [events[n]] else []
  }

  lemma {:induction false} OfItemsConcat(a: seq<Event>, b: seq<Event>)
    ensures OfItems(a + b) == OfItems(a) + OfItems(b)
  {
    hide Target;
    if b == [] {
      assert a + b == a;
    } else {
      assert (a + b)[..|a + b| - 1] == a + b[..|b| - 1];
      OfItemsConcat(a, b[..|b| - 1]);
    }
  }

  lemma OfItemsOneMore(front: seq<Event>, e: Event)
    ensures OfItems(front + [e]) == OfItems(front) + if Target(e).Some? then [e] else []
  {
    hide Target;
    assert (front + [e])[..|front|] == front;
  }

  lemma OfNoItems()
    ensures OfItems([]) == []
  {
  }

  lemma {:induction false} OfItemsAll(events: seq<Event>, all: bool)
    requires forall e :: e in events ==> Target(e).Some? == all
    ensures OfItems(events) == if all then events else []
  {
    hide Target, OfItems;
    if events == [] {
      OfNoItems();
    } else {
      var front, last := events[..|events| - 1], events[|events| - 1];
      assert events == front + [last] && last in events;
      OfItemsAll(front, all);
      OfItemsOneMore(front, last);
    }
  }

  /**
    What a diff says of items is the logs of the items of the new projection, one after the
    other, in the order in which it lists them.
   */
  lemma {:induction false} LogsInOrder(prev: Projection, next: Projection, snaps: Snapshots)
    requires Distinct(next)
    ensures var events := DiffEvents(prev, next, snaps);
            OfItems(events) == Gather(Keys(next.thread.turns), events)
  {
    hide DiffEvents, TurnItemEvents, LifecycleEvents, ResolvedEvents, StatusEvents, OfItem, OfItems, DistinctTurnIds,
      DistinctItemIds, DistinctIn, Gather, Keys;
    var a, b, c, d := DiffParts(prev, next, snaps);
    OfItemsAll(a, false);
    OfItemsAll(b, true);
    OfItemsAll(c, false);
    OfItemsAll(d, false);
    OfItemsConcat(a, b);
    OfItemsConcat(a + b, c);
    OfItemsConcat(a + b + c, d);
    DistinctEach(next.thread.turns);
    TurnsInOrder(prev.thread.turns, next.activeTurnId, next.thread.turns, snaps);
    forall key | key in Keys(next.thread.turns)
      ensures OfItem(key, DiffEvents(prev, next, snaps)) == OfItem(key, b)
    {
      DiffLog(prev, next, snaps, key);
    }
    GatherSame(Keys(next.thread.turns), DiffEvents(prev, next, snaps), b);
  }

  // ----- Duplicate ids -----

  /** Of several items with one id the diff compares with the last. */
  lemma {:induction false} LastItemStays(items: seq<ThreadItem>, k: nat)
    requires k < |items| && forall j :: k < j < |items| ==> items[j].id != items[k].id
    ensures items[k].id in ItemsById(items) && ItemsById(items)[items[k].id] == items[k]
  {
    if k < |items| - 1 {
      LastItemStays(items[..|items| - 1], k);
    }
  }

  /** And of several turns with one id. */
  lemma {:induction false} LastTurnStays(turns: seq<Turn>, k: nat)
    requires k < |turns| && forall j :: k < j < |turns| ==> turns[j].id != turns[k].id
    ensures turns[k].id in TurnsById(turns) && TurnsById(turns)[turns[k].id] == turns[k]
  {
    if k < |turns| - 1 {
      LastTurnStays(turns[..|turns| - 1], k);
    }
  }

  lemma {:induction false} LastItemRecorded(snaps: Snapshots, items: seq<ThreadItem>, k: nat)
    requires k < |items| && forall j :: k < j < |items| ==> items[j].id != items[k].id
    ensures Lookup(InsertItems(snaps, items), items[k].id) == Some(SnapshotItem(items[k]))
  {
    hide SnapshotItem;
    if k < |items| - 1 {
      LastItemRecorded(snaps, items[..|items| - 1], k);
    }
  }

  lemma {:induction false} OthersUnrecorded(snaps: Snapshots, items: seq<ThreadItem>, id: string)
    requires forall i :: i in items ==> i.id != id
    ensures Lookup(InsertItems(snaps, items), id) == Lookup(snaps, id)
  {
    hide SnapshotItem;
    if items != [] {
      OthersUnrecorded(snaps, items[..|items| - 1], id);
    }
  }

  /** Of all items with one id, in whichever turns, it is the last whose text lengths are recorded. */
  lemma {:induction false} LastRecorded(snaps: Snapshots, turns: seq<Turn>, a: nat, k: nat)
    requires a < |turns| && k < |turns[a].items|
    requires forall j :: k < j < |turns[a].items| ==> turns[a].items[j].id != turns[a].items[k].id
    requires forall b, i :: a < b < |turns| && i in turns[b].items ==> i.id != turns[a].items[k].id
    ensures var item := turns[a].items[k]; Lookup(InsertTurns(snaps, turns), item.id) == Some(SnapshotItem(item))
  {
    hide SnapshotItem, InsertItems, Lookup;
    var front, last := turns[..|turns| - 1], turns[|turns| - 1];
    if a < |turns| - 1 {
      LastRecorded(snaps, front, a, k);
      OthersUnrecorded(InsertTurns(snaps, front), last.items, turns[a].items[k].id);
    } else {
      LastItemRecorded(InsertTurns(snaps, front), last.items, k);
    }
  }

  // ----- Turns, requests and status -----

  /** The first turn with the id is at `k`. */
  ghost predicate FirstAt(turns: seq<Turn>, id: string, k: nat) {
    k < |turns| && turns[k].id == id && forall j :: 0 <= j < k ==> turns[j].id != id
  }

  /** Of several turns with one id the first is found. */
  lemma {:induction false} FindsFirst(turns: seq<Turn>, id: string, k: nat)
    requires FirstAt(turns, id, k)
    ensures FindTurn(turns, id) == Some(turns[k])
  {
    if k > 0 {
      FindsFirst(turns[1..], id, k - 1);
    }
  }

  lemma {:induction false} FindsIt(turns: seq<Turn>, t: Turn)
    requires DistinctTurnIds(turns)
    ensures FindTurn(turns, t.id) == Some(t) <==> t in turns
  {
    if t in turns {
      var k :| 0 <= k < |turns| && turns[k] == t;
      FindsFirst(turns, t.id, k);
    }
  }

  /**
    A turn is announced as started if it is the one that becomes active, and as completed if
    it is the one that was, as it now stands; nothing is said when the active turn stays.
   */
  lemma {:induction false} LifecycleExactly(prev: Projection, next: Projection, snaps: Snapshots, t: Turn)
    requires DistinctTurnIds(next.thread.turns)
    ensures TurnStarted(t) in DiffEvents(prev, next, snaps)
       <==> prev.activeTurnId != next.activeTurnId == Some(t.id) && t in next.thread.turns
    ensures TurnCompleted(t) in DiffEvents(prev, next, snaps)
       <==> next.activeTurnId != prev.activeTurnId == Some(t.id) && t in next.thread.turns
  {
    hide DiffEvents, TurnItemEvents, ResolvedEvents, StatusEvents, FindTurn, DistinctTurnIds;
    var a, b, c, d := DiffParts(prev, next, snaps);
    FindsIt(next.thread.turns, t);
    assert Target(TurnStarted(t)).None? && Target(TurnCompleted(t)).None?;
  }

  /** A request is announced as resolved if and only if it was pending and no longer is. */
  lemma {:induction false} ResolvedExactly(prev: Projection, next: Projection, snaps: Snapshots, id: string)
    ensures ServerRequestResolved(id) in DiffEvents(prev, next, snaps)
       <==> && (exists r :: r in prev.pendingApprovals + prev.pendingUserInputs && r.id == id)
            && (forall r :: r in next.pendingApprovals + next.pendingUserInputs ==> r.id != id)
  {
    hide DiffEvents, TurnItemEvents, LifecycleEvents, ResolvedEvents, StatusEvents;
    var a, b, c, d := DiffParts(prev, next, snaps);
    assert Target(ServerRequestResolved(id)).None?;
    ResolvedHas(prev.pendingApprovals, WaitingIds(next), id);
    ResolvedHas(prev.pendingUserInputs, WaitingIds(next), id);
  }

  lemma {:induction false} ResolvedHas(requests: seq<PendingRequest>, still: set<string>, id: string)
    ensures ServerRequestResolved(id) in ResolvedEvents(requests, still)
       <==> id !in still && exists r :: r in requests && r.id == id
  {
    if requests != [] {
      var front, last := requests[..|requests| - 1], requests[|requests| - 1];
      assert forall r :: r in requests <==> r in front || r == last;
      ResolvedHas(front, still, id);
    }
  }

  /** The ids resolved, in order. */
  function ResolvedIds(events: seq<Event>): seq<string> {
    if events == [] then []
    else
      var n := |events| - 1;
      ResolvedIds(events[..n]) + if events[n].ServerRequestResolved? then [events[n].requestId] else []
  }

  function Ids(requests: seq<PendingRequest>): seq<string> {
    seq(|requests|, i requires 0 <= i < |requests| => requests[i].id)
  }

  /** `some` is what is left of `all` when the ids in `still` are struck out. */
  ghost predicate StruckOut(all: seq<string>, still: set<string>, some: seq<string>) {
    if all == [] then some == []
    else if all[0] in still then StruckOut(all[1..], still, some)
    else some != [] && some[0] == all[0] && StruckOut(all[1..], still, some[1..])
  }

  lemma {:induction false} StruckOutConcat(
      a: seq<string>, b: seq<string>, still: set<string>, c: seq<string>, d: seq<string>)
    requires StruckOut(a, still, c) && StruckOut(b, still, d)
    ensures StruckOut(a + b, still, c + d)
  {
    if a == [] {
      assert a + b == b && c + d == d;
    } else {
      assert (a + b)[1..] == a[1..] + b;
      if a[0] in still {
        StruckOutConcat(a[1..], b, still, c, d);
      } else {
        assert (c + d)[1..] == c[1..] + d;
        StruckOutConcat(a[1..], b, still, c[1..], d);
      }
    }
  }

  lemma {:induction false} ResolvedIdsConcat(a: seq<Event>, b: seq<Event>)
    ensures ResolvedIds(a + b) == ResolvedIds(a) + ResolvedIds(b)
  {
    if b == [] {
      assert a + b == a;
    } else {
      assert (a + b)[..|a + b| - 1] == a + b[..|b| - 1];
      ResolvedIdsConcat(a, b[..|b| - 1]);
    }
  }

  lemma {:induction false} NoResolvedIds(events: seq<Event>)
    requires forall e :: e in events ==> !e.ServerRequestResolved?
    ensures ResolvedIds(events) == []
  {
    if events != [] {
      NoResolvedIds(events[..|events| - 1]);
    }
  }

  lemma StruckOutOne(last: PendingRequest, still: set<string>)
    ensures StruckOut([last.id], still,
                      ResolvedIds(if last.id !in still then [ServerRequestResolved(last.id)] else []))
  {
    var e := ServerRequestResolved(last.id);
    assert [e][..0] == [] && ResolvedIds([]) == [] && ResolvedIds([e]) == [last.id];
    assert [last.id][1..] == [];
  }

  lemma {:induction false} ResolvedStruckOut(requests: seq<PendingRequest>, still: set<string>)
    ensures StruckOut(Ids(requests), still, ResolvedIds(ResolvedEvents(requests, still)))
  {
    hide StruckOut, ResolvedIds;
    if requests == [] {
      NoneStruckOut(still);
    } else {
      var front, last := requests[..|requests| - 1], requests[|requests| - 1];
      var one := if last.id !in still then [ServerRequestResolved(last.id)] else [];
      ResolvedStruckOut(front, still);
      ResolvedIdsConcat(ResolvedEvents(front, still), one);
      StruckOutOne(last, still);
      StruckOutConcat(Ids(front), [last.id], still, ResolvedIds(ResolvedEvents(front, still)), ResolvedIds(one));
      assert Ids(requests) == Ids(front) + [last.id];
    }
  }

  lemma NoneStruckOut(still: set<string>)
    ensures StruckOut(Ids([]), still, ResolvedIds(ResolvedEvents([], still)))
  {
  }

  /** Each is announced once for each time it was pending, approvals first, in their order. */
  lemma {:induction false} ResolvedInOrder(prev: Projection, next: Projection, snaps: Snapshots)
    ensures StruckOut(Ids(prev.pendingApprovals) + Ids(prev.pendingUserInputs), WaitingIds(next),
                      ResolvedIds(DiffEvents(prev, next, snaps)))
  {
    hide DiffEvents, TurnItemEvents, LifecycleEvents, ResolvedEvents, StatusEvents, StruckOut, ResolvedIds, Ids;
    var a, b, c, d := DiffParts(prev, next, snaps);
    NoResolvedIds(a);
    NoResolvedIds(b);
    NoResolvedIds(d);
    ResolvedIdsConcat(a, b);
    ResolvedIdsConcat(a + b, c);
    ResolvedIdsConcat(a + b + c, d);
    var still := WaitingIds(next);
    var e, f := ResolvedEvents(prev.pendingApprovals, still), ResolvedEvents(prev.pendingUserInputs, still);
    ResolvedIdsConcat(e, f);
    ResolvedStruckOut(prev.pendingApprovals, still);
    ResolvedStruckOut(prev.pendingUserInputs, still);
    StruckOutConcat(Ids(prev.pendingApprovals), Ids(prev.pendingUserInputs), still, ResolvedIds(e), ResolvedIds(f));
    assert ResolvedIds(DiffEvents(prev, next, snaps)) == ResolvedIds(e) + ResolvedIds(f);
  }

  /** A status is announced if and only if it is the new one and differs from the old. */
  lemma {:induction false} StatusExactly(prev: Projection, next: Projection, snaps: Snapshots, s: ThreadStatus)
    ensures ThreadStatusChanged(s) in DiffEvents(prev, next, snaps) <==> prev.thread.status != next.thread.status == s
  {
    hide DiffEvents, TurnItemEvents, LifecycleEvents, ResolvedEvents;
    var a, b, c, d := DiffParts(prev, next, snaps);
    assert Target(ThreadStatusChanged(s)).None?;
  }

  /** A turn that completes comes first, then one that starts, the items, the requests, and the status. */
  function Phase(e: Event): nat {
    match e
    case TurnCompleted(_) => 0
    case TurnStarted(_) => 1
    case ServerRequestResolved(_) => 3
    case ThreadStatusChanged(_) => 4
    case _ => 2
  }

  /** Phases never go back, and only those of items and of requests have more than one event. */
  ghost predicate InOrder(events: seq<Event>) {
    forall i, j :: 0 <= i < j < |events| ==>
      Phase(events[i]) < Phase(events[j]) || (Phase(events[i]) == Phase(events[j]) && 2 <= Phase(events[i]) <= 3)
  }

  ghost predicate Within(events: seq<Event>, lo: nat, hi: nat) {
    forall e :: e in events ==> lo <= Phase(e) <= hi
  }

  lemma InOrderConcat(a: seq<Event>, b: seq<Event>, x: nat, y: nat, z: nat, w: nat)
    requires InOrder(a) && InOrder(b) && Within(a, x, y) && Within(b, z, w) && x <= y < z <= w
    ensures InOrder(a + b) && Within(a + b, x, w)
  {
    hide Phase;
    var all := a + b;
    forall i, j | 0 <= i < j < |all|
      ensures Phase(all[i]) < Phase(all[j]) || (Phase(all[i]) == Phase(all[j]) && 2 <= Phase(all[i]) <= 3)
    {
      if i < |a| <= j {
        assert all[i] in a && all[j] in b;
      }
    }
  }

  lemma {:induction false} PhasesInOrder(prev: Projection, next: Projection, snaps: Snapshots)
    ensures InOrder(DiffEvents(prev, next, snaps))
  {
    hide DiffEvents, TurnItemEvents, ResolvedEvents, FindTurn, InOrder;
    var a, b, c, d := DiffParts(prev, next, snaps);
    LifecycleInOrder(prev, next);
    OnePhase(b, 2);
    OnePhase(c, 3);
    OnePhase(d, 4);
    InOrderConcat(a, b, 0, 1, 2, 2);
    InOrderConcat(a + b, c, 0, 2, 3, 3);
    InOrderConcat(a + b + c, d, 0, 3, 4, 4);
  }

  lemma LifecycleInOrder(prev: Projection, next: Projection)
    ensures InOrder(LifecycleEvents(prev, next)) && Within(LifecycleEvents(prev, next), 0, 1)
  {
    hide FindTurn;
  }

  lemma OnePhase(events: seq<Event>, p: nat)
    requires forall e :: e in events ==> Phase(e) == p
    requires 2 <= p <= 3 || |events| <= 1
    ensures InOrder(events) && Within(events, p, p)
  {
  }

  // ----- The difference of two items -----

  /** Two items of one kind whose text is streamed. */
  predicate Streamed(prev: ThreadItem, next: ThreadItem) {
    || (prev.AgentMessage? && next.AgentMessage?) || (prev.Plan? && next.Plan?)
    || (prev.Reasoning? && next.Reasoning?) || (prev.CommandExecution? && next.CommandExecution?)
  }

  /** Any other change sends the whole item. */
  lemma OthersWhole(turnId: string, prev: ThreadItem, next: ThreadItem, snap: Option<ItemTextSnapshot>)
    requires !Streamed(prev, next)
    ensures ItemDiff(turnId, prev, next, snap) == [ItemCompleted(turnId, next)]
  {
  }

  /** Part `k` of a reasoning item is what it was, and then `delta`; a part that was not there was empty. */
  predicate Appended(prev: seq<Text>, next: seq<Text>, k: nat, delta: Text) {
    k < |next| && delta != [] && next[k] == (if k < |prev| then prev[k] else []) + delta
  }

  lemma GrowthAppends(prev: seq<Text>, next: seq<Text>, lens: Option<seq<nat>>, k: nat, delta: Text)
    requires LensAgree(lens, prev) && k < |prev| && k < |next|
    ensures Growth(prev[k], next[k], LengthAt(lens, k, |prev[k]|)) == Some(delta) <==> Appended(prev, next, k, delta)
  {
    GrowthOfPrefix(prev[k], next[k]);
  }

  lemma PartLog(
      turnId: string, id: string, prev: seq<Text>, next: seq<Text>, lens: Option<seq<nat>>, i: nat, k: nat,
      delta: Text)
    requires LensAgree(lens, prev) && i < |next|
    ensures ReasoningSummaryPartAdded(turnId, id, k) in SummaryPartEvents(turnId, id, prev, next, lens, i)
       <==> k == i >= |prev|
    ensures ReasoningSummaryTextDelta(turnId, id, delta, k) in SummaryPartEvents(turnId, id, prev, next, lens, i)
       <==> k == i && Appended(prev, next, k, delta)
    ensures ReasoningTextDelta(turnId, id, delta, k) in ThoughtPartEvents(turnId, id, prev, next, lens, i)
       <==> k == i && Appended(prev, next, k, delta)
  {
    hide Growth, LengthAt, LensAgree;
    if i < |prev| {
      var growth := Growth(prev[i], next[i], LengthAt(lens, i, |prev[i]|));
      GrowthAppends(prev, next, lens, i, delta);
    } else {
      assert next[i] == [] + next[i] && [] + delta == delta;
    }
  }

  lemma {:induction false} PartsLog(
      turnId: string, id: string, prev: seq<Text>, next: seq<Text>, lens: Option<seq<nat>>, n: nat, k: nat,
      delta: Text)
    requires LensAgree(lens, prev) && n <= |next|
    ensures ReasoningSummaryPartAdded(turnId, id, k) in SummaryEvents(turnId, id, prev, next, lens, n)
       <==> |prev| <= k < n
    ensures ReasoningSummaryTextDelta(turnId, id, delta, k) in SummaryEvents(turnId, id, prev, next, lens, n)
       <==> k < n && Appended(prev, next, k, delta)
    ensures ReasoningTextDelta(turnId, id, delta, k) in ThoughtEvents(turnId, id, prev, next, lens, n)
       <==> k < n && Appended(prev, next, k, delta)
  {
    hide SummaryPartEvents, ThoughtPartEvents, Appended, LensAgree;
    if n > 0 {
      PartsLog(turnId, id, prev, next, lens, n - 1, k, delta);
      PartLog(turnId, id, prev, next, lens, n - 1, k, delta);
    }
  }

  /** Where an event of a reasoning item belongs among them: part by part, its announcement first; then the thoughts. */
  function Rank(parts: nat, e: Event): Option<nat> {
    match e
    case ReasoningSummaryPartAdded(_, _, k) => if k < parts then Some(2 * k) else None
    case ReasoningSummaryTextDelta(_, _, _, k) => if k < parts then Some(2 * k + 1) else None
    case ReasoningTextDelta(_, _, _, k) => Some(2 * parts + k)
    case _ => None
  }

  ghost predicate Ranked(parts: nat, events: seq<Event>, lo: nat, hi: nat) {
    && (forall e :: e in events ==> Rank(parts, e).Some? && lo <= Rank(parts, e).value < hi)
    && (forall i, j :: 0 <= i < j < |events| ==> Rank(parts, events[i]).value < Rank(parts, events[j]).value)
  }

  lemma RankedConcat(parts: nat, a: seq<Event>, b: seq<Event>, lo: nat, mid: nat, hi: nat)
    requires Ranked(parts, a, lo, mid) && Ranked(parts, b, mid, hi) && lo <= mid <= hi
    ensures Ranked(parts, a + b, lo, hi)
  {
    hide Rank;
    var all := a + b;
    forall i, j | 0 <= i < j < |all|
      ensures Rank(parts, all[i]).Some? && Rank(parts, all[j]).Some?
      ensures Rank(parts, all[i]).value < Rank(parts, all[j]).value
    {
      assert all[i] in a || all[i] in b;
      if i < |a| <= j {
        assert all[i] in a && all[j] in b;
      }
    }
  }

  lemma PartRanked(
      turnId: string, id: string, prev: seq<Text>, next: seq<Text>, lens: Option<seq<nat>>, i: nat, parts: nat)
    requires i < |next|
    ensures i < parts ==> Ranked(parts, SummaryPartEvents(turnId, id, prev, next, lens, i), 2 * i, 2 * i + 2)
    ensures Ranked(parts, ThoughtPartEvents(turnId, id, prev, next, lens, i), 2 * parts + i, 2 * parts + i + 1)
  {
    hide Growth, LengthAt;
  }

  lemma NoneRanked(parts: nat, lo: nat)
    ensures Ranked(parts, [], lo, lo)
  {
  }

  lemma {:induction false} PartsRanked(
      turnId: string, id: string, prev: seq<Text>, next: seq<Text>, lens: Option<seq<nat>>, n: nat, parts: nat)
    requires n <= |next|
    ensures n <= parts ==> Ranked(parts, SummaryEvents(turnId, id, prev, next, lens, n), 0, 2 * n)
    ensures Ranked(parts, ThoughtEvents(turnId, id, prev, next, lens, n), 2 * parts, 2 * parts + n)
  {
    hide SummaryPartEvents, ThoughtPartEvents, Ranked;
    if n == 0 {
      NoneRanked(parts, 0);
      NoneRanked(parts, 2 * parts);
    } else {
      PartsRanked(turnId, id, prev, next, lens, n - 1, parts);
      PartRanked(turnId, id, prev, next, lens, n - 1, parts);
      if n <= parts {
        RankedConcat(parts, SummaryEvents(turnId, id, prev, next, lens, n - 1),
                     SummaryPartEvents(turnId, id, prev, next, lens, n - 1), 0, 2 * (n - 1), 2 * n);
      }
      RankedConcat(parts, ThoughtEvents(turnId, id, prev, next, lens, n - 1),
                   ThoughtPartEvents(turnId, id, prev, next, lens, n - 1), 2 * parts, 2 * parts + n - 1, 2 * parts + n);
    }
  }

  /**
    The events of a reasoning item that grows: a summary part is announced if it is new, its
    text and that of a thought is sent if something was appended, just what was; nothing else,
    nothing twice, and in order. One that does not grow is sent whole.
   */
  lemma {:induction false} ReasoningLog(
      turnId: string, prev: ThreadItem, next: ThreadItem, snap: Option<ItemTextSnapshot>, k: nat, delta: Text)
    requires prev.Reasoning? && next.Reasoning? && prev.id == next.id && Agrees(snap, prev)
    ensures !GrowsSomewhere(prev, next) ==> ItemDiff(turnId, prev, next, snap) == [ItemCompleted(turnId, next)]
    ensures GrowsSomewhere(prev, next) ==>
              var events := ItemDiff(turnId, prev, next, snap);
              && (ReasoningSummaryPartAdded(turnId, next.id, k) in events <==> |prev.summary| <= k < |next.summary|)
              && (ReasoningSummaryTextDelta(turnId, next.id, delta, k) in events <==>
                    Appended(prev.summary, next.summary, k, delta))
              && (ReasoningTextDelta(turnId, next.id, delta, k) in events <==>
                    Appended(prev.thoughts, next.thoughts, k, delta))
              && Ranked(|next.summary|, events, 0, 2 * |next.summary| + |next.thoughts|)
  {
    hide SummaryEvents, ThoughtEvents, GrowsSomewhere, Agrees, Appended, Ranked, LensAgree;
    var n, m := |next.summary|, |next.thoughts|;
    ReasoningReplay(turnId, prev, next, snap);
    ReasoningAgrees(snap, prev);
    PartsLog(turnId, next.id, prev.summary, next.summary, SummaryLens(snap), n, k, delta);
    PartsLog(turnId, next.id, prev.thoughts, next.thoughts, ThoughtLens(snap), m, k, delta);
    PartsRanked(turnId, next.id, prev.summary, next.summary, SummaryLens(snap), n, n);
    PartsRanked(turnId, next.id, prev.thoughts, next.thoughts, ThoughtLens(snap), m, n);
    var a := SummaryEvents(turnId, next.id, prev.summary, next.summary, SummaryLens(snap), n);
    var b := ThoughtEvents(turnId, next.id, prev.thoughts, next.thoughts, ThoughtLens(snap), m);
    RankedConcat(n, a, b, 0, 2 * n, 2 * n + m);
    RankedKinds(n, a, 0, 2 * n);
    RankedKinds(n, b, 2 * n, 2 * n + m);
    AppendedWithin(prev.summary, next.summary, k, delta);
    AppendedWithin(prev.thoughts, next.thoughts, k, delta);
  }

  lemma AppendedWithin(prev: seq<Text>, next: seq<Text>, k: nat, delta: Text)
    ensures Appended(prev, next, k, delta) ==> k < |next|
  {
  }

  /** Ranks tell the summary from the thoughts. */
  lemma RankedKinds(parts: nat, events: seq<Event>, lo: nat, hi: nat)
    requires Ranked(parts, events, lo, hi)
    ensures hi <= 2 * parts ==> forall e :: e in events ==> !e.ReasoningTextDelta?
    ensures lo >= 2 * parts ==> forall e :: e in events ==> e.ReasoningTextDelta?
  {
  }

  // ----- First appearance -----

  /** The turns of other ids. */
  function Without(turns: seq<Turn>, id: string): seq<Turn> {
    if turns == [] then []
    else
      var last := turns[|turns| - 1];
      Without(turns[..|turns| - 1], id) + if last.id == id then [] else [last]
  }

  /** What the projection was, had its active turn not begun. */
  function BeforeActive(p: Projection): Projection {
    if p.activeTurnId.None? then p
    else p.(activeTurnId := None, thread := p.thread.(turns := Without(p.thread.turns, p.activeTurnId.value)))
  }

  lemma TurnsByIdLast(front: seq<Turn>, last: Turn)
    ensures TurnsById(front + [last]) == TurnsById(front)[last.id := last]
  {
    assert (front + [last])[..|front|] == front;
  }

  lemma WithoutLast(front: seq<Turn>, last: Turn, id: string)
    ensures Without(front + [last], id) == if last.id == id then Without(front, id) else Without(front, id) + [last]
  {
    assert (front + [last])[..|front|] == front;
  }

  lemma UpdateThenDrop<T>(m: map<string, T>, k: string, v: T, id: string)
    ensures m[k := v] - {id} == if k == id then m - {id} else (m - {id})[k := v]
  {
  }

  lemma {:induction false} WithoutById(turns: seq<Turn>, id: string)
    ensures TurnsById(Without(turns, id)) == TurnsById(turns) - {id}
  {
    hide TurnsById, Without;
    if turns == [] {
      NoTurnsById(id);
    } else {
      var front, last := turns[..|turns| - 1], turns[|turns| - 1];
      assert front + [last] == turns;
      WithoutById(front, id);
      TurnsByIdLast(front, last);
      TurnsByIdLast(Without(front, id), last);
      WithoutLast(front, last, id);
      UpdateThenDrop(TurnsById(front), last.id, last, id);
    }
  }

  lemma NoTurnsById(id: string)
    ensures TurnsById(Without([], id)) == TurnsById([]) - {id}
  {
  }

  lemma PrevItemsWithout(turns: seq<Turn>, id: string, turnId: string)
    ensures PrevItems(Without(turns, id), turnId) == if turnId == id then map[] else PrevItems(turns, turnId)
  {
    hide TurnsById, ItemsById, Without;
    WithoutById(turns, id);
  }

  lemma TurnItemEventsNext(
      prev: seq<Turn>, activeTurnId: Option<string>, turns: seq<Turn>, snaps: Snapshots, n: nat)
    requires n < |turns|
    ensures TurnItemEvents(prev, activeTurnId, turns[..n + 1], snaps)
         == TurnItemEvents(prev, activeTurnId, turns[..n], snaps) + TurnEvents(prev, activeTurnId, turns[n], snaps)
  {
    hide TurnEvents;
    assert turns[..n + 1][..n] == turns[..n];
  }

  /** Against that projection an active turn is all new, and any other as it was. */
  lemma {:induction false} FirstTurn(p: Projection, snaps: Snapshots, t: Turn)
    requires Distinct(p) && p.activeTurnId.Some? && t in p.thread.turns
    ensures TurnEvents(Without(p.thread.turns, p.activeTurnId.value), p.activeTurnId, t, snaps)
         == if p.activeTurnId == Some(t.id) then NewItemEvents(t.id, t.items) else []
  {
    hide PrevItems, Without, ItemEvents, NewItemEvents, Distinct;
    var turns := p.thread.turns;
    PrevItemsWithout(turns, p.activeTurnId.value, t.id);
    if p.activeTurnId == Some(t.id) {
      NewItemsAreItemEvents(t.id, true, t.items, snaps);
    } else {
      forall i | i in t.items ensures i.id in PrevItems(turns, t.id) && PrevItems(turns, t.id)[i.id] == i {
        PrevItemFound(p, t, i);
      }
      UnchangedItemsQuiet(t.id, false, PrevItems(turns, t.id), t.items, snaps);
    }
  }

  /** So only the turn at `at` has events, those of its items as new. */
  lemma {:induction false} FirstTurns(p: Projection, snaps: Snapshots, at: nat, n: nat)
    requires Distinct(p) && p.activeTurnId.Some? && n <= |p.thread.turns|
    requires forall j :: 0 <= j < |p.thread.turns| ==> (j == at <==> p.thread.turns[j].id == p.activeTurnId.value)
    ensures var turns, id := p.thread.turns, p.activeTurnId.value;
            TurnItemEvents(Without(turns, id), Some(id), turns[..n], snaps) ==
            if at < n then NewItemEvents(turns[at].id, turns[at].items) else []
  {
    hide Without, TurnEvents, TurnItemEvents, NewItemEvents, Distinct;
    var turns, id := p.thread.turns, p.activeTurnId.value;
    if n == 0 {
      NoTurnEvents(Without(turns, id), Some(id), snaps);
    } else {
      FirstTurns(p, snaps, at, n - 1);
      TurnItemEventsNext(Without(turns, id), Some(id), turns, snaps, n - 1);
      FirstTurn(p, snaps, turns[n - 1]);
    }
  }

  lemma NoTurnEvents(prev: seq<Turn>, activeTurnId: Option<string>, snaps: Snapshots)
    ensures TurnItemEvents(prev, activeTurnId, [], snaps) == []
  {
  }

  /** A thread that first appears is told as one whose active turn has just begun: that diff, and no more. */
  lemma {:induction false} FirstIsDiff(p: Projection, snaps: Snapshots)
    requires Distinct(p)
    ensures FirstEvents(p) == DiffEvents(BeforeActive(p), p, snaps)
  {
    hide TurnItemEvents, NewItemEvents, DistinctItemIds, Without, FindTurn, ResolvedEvents, WaitingIds;
    if p.activeTurnId.None? {
      IdenticalQuiet(p, snaps);
    } else {
      var turns, id := p.thread.turns, p.activeTurnId.value;
      var found := FindTurn(turns, id);
      var at := if found.Some? then IndexOf(turns, found.value) else |turns|;
      FirstTurns(p, snaps, at, |turns|);
      assert turns[..|turns|] == turns;
      RequestsQuiet(p);
    }
  }

  ghost function IndexOf(turns: seq<Turn>, t: Turn): (k: nat)
    requires t in turns
    ensures k < |turns| && turns[k] == t
  {
    var k :| 0 <= k < |turns| && turns[k] == t;
    k
  }

  lemma RequestsQuiet(p: Projection)
    ensures ResolvedEvents(p.pendingApprovals, WaitingIds(p)) == []
    ensures ResolvedEvents(p.pendingUserInputs, WaitingIds(p)) == []
  {
    StillWaitingQuiet(p.pendingApprovals, WaitingIds(p));
    StillWaitingQuiet(p.pendingUserInputs, WaitingIds(p));
  }

  /**
    From nothing, the first events of a thread show its active turn: every item of it in full,
    no other item, and that it is active. Without an active turn there are none.
   */
  lemma {:induction false} FirstAppearance(p: Projection)
    requires Distinct(p)
    ensures p.activeTurnId.None? ==> FirstEvents(p) == []
    ensures forall t :: t in p.thread.turns && p.activeTurnId == Some(t.id) ==>
              var events := FirstEvents(p);
              && events != [] && events[0] == TurnStarted(t)
              && ReplayActive(None, events) == p.activeTurnId
              && (forall key :: key in ReplayItems(map[], events) <==> IsKeyOf(key, t.id, t.items))
              && (forall i :: i in t.items ==>
                    && ReplayItems(map[], events)[(t.id, i.id)] == i
                    && OfItem((t.id, i.id), events) == [ItemStarted(t.id, i), ItemCompleted(t.id, i)])
  {
    hide NewItemEvents, DistinctTurnIds, DistinctItemIds, FindTurn, OfItem, Fold;
    forall t | t in p.thread.turns && p.activeTurnId == Some(t.id)
      ensures var events := FirstEvents(p);
              && events != [] && events[0] == TurnStarted(t)
              && ReplayActive(None, events) == p.activeTurnId
              && (forall key :: key in ReplayItems(map[], events) <==> IsKeyOf(key, t.id, t.items))
              && (forall i :: i in t.items ==>
                    && ReplayItems(map[], events)[(t.id, i.id)] == i
                    && OfItem((t.id, i.id), events) == [ItemStarted(t.id, i), ItemCompleted(t.id, i)])
    {
      FindsIt(p.thread.turns, t);
      DistinctEach(p.thread.turns);
      FirstOfTurn(t);
    }
  }

  lemma {:induction false} FirstOfTurn(t: Turn)
    requires DistinctIn(t.items)
    ensures var events := [TurnStarted(t)] + NewItemEvents(t.id, t.items);
            && ReplayActive(None, events) == Some(t.id)
            && (forall key :: key in ReplayItems(map[], events) <==> IsKeyOf(key, t.id, t.items))
            && (forall i :: i in t.items ==>
                  && ReplayItems(map[], events)[(t.id, i.id)] == i
                  && OfItem((t.id, i.id), events) == [ItemStarted(t.id, i), ItemCompleted(t.id, i)])
  {
    hide NewItemEvents, OfItem, Fold, DistinctIn;
    var start, news := [TurnStarted(t)], NewItemEvents(t.id, t.items);
    FoldConcat(ApplyToActive, None, start, news);
    FoldShort(ApplyToActive, None, start);
    NewItemEventsTargeted(t.id, t.items);
    FoldIdle(ApplyToActive, Some(t.id), news);
    FoldConcat(ApplyToItems, map[], start, news);
    NoTargetIdle(map[], start);
    InstallTurn(Whole, map[], t.id, t.items);
    var items: Items := ReplayItems(map[], start + news);
    forall key: ItemKey ensures key in items <==> IsKeyOf(key, t.id, t.items) {
      if IsKeyOf(key, t.id, t.items) {
        var i :| i in t.items && i.id == key.1;
        assert Shows(Whole, items, t.id, i);
      } else {
        assert SameAt(items, map[], key);
      }
    }
    forall i | i in t.items
      ensures items[(t.id, i.id)] == i
      ensures OfItem((t.id, i.id), start + news) == [ItemStarted(t.id, i), ItemCompleted(t.id, i)]
    {
      var key := (t.id, i.id);
      assert Shows(Whole, items, t.id, i);
      OfItemConcat(key, start, news);
      OfItemNone(key, start);
      NewItemsAreItemEvents(t.id, false, t.items, map[]);
      ItemsLog(t.id, false, map[], t.items, map[], key);
      assert [] + OfItem(key, news) == OfItem(key, news);
    }
  }
}
