/**
  What the recorded text lengths must be. When they fit the items being shown, no slice of a diff
  falls inside a character and the diff is replayed right; when one does not, some later change,
  reportable in itself, is misreported or panics.
 */
module TextSnapshots {
  import opened Wrappers
  import opened Utf8
  import opened Thread
  import opened Diff
  import opened Replay

  // ----- Slices -----

  /** The length of a valid text is a place where each valid extension of it can be cut. */
  lemma AgreeingGrowthFits(prev: Text, next: Text)
    requires Valid(prev) && Valid(next)
    ensures GrowthFits(prev, next, |prev|)
    ensures Growth(prev, next, |prev|).Some? ==> Valid(Growth(prev, next, |prev|).value)
  {
    GrowthOfPrefix(prev, next);
    if prev <= next {
      assert next[..|prev|] == prev;
      BoundaryIffValidPrefix(next, |prev|);
    }
  }

  lemma AgreeingPartsFit(prev: seq<Text>, next: seq<Text>, lens: Option<seq<nat>>)
    requires LensAgree(lens, prev) && AllValid(prev) && AllValid(next)
    ensures PartsFit(prev, next, lens, |next|)
  {
    hide GrowthFits;
    forall i | 0 <= i < |prev| && i < |next| ensures GrowthFits(prev[i], next[i], LengthAt(lens, i, |prev[i]|)) {
      AgreeingGrowthFits(prev[i], next[i]);
    }
  }

  lemma AgreeingItemFits(prev: ThreadItem, next: ThreadItem, snap: Option<ItemTextSnapshot>)
    requires Agrees(snap, prev) && ValidTexts(prev) && ValidTexts(next)
    ensures ItemFits(prev, next, snap)
  {
    hide GrowthFits, PartsFit, LensAgree, AllValid;
    if prev.AgentMessage? && next.AgentMessage? {
      AgreeingGrowthFits(prev.text, next.text);
    } else if prev.Plan? && next.Plan? {
      AgreeingGrowthFits(prev.text, next.text);
    } else if prev.Reasoning? && next.Reasoning? {
      ReasoningAgrees(snap, prev);
      AgreeingPartsFit(prev.summary, next.summary, SummaryLens(snap));
      AgreeingPartsFit(prev.thoughts, next.thoughts, ThoughtLens(snap));
    } else if prev.CommandExecution? && next.CommandExecution? {
      AgreeingGrowthFits(OutputText(prev.output), OutputText(next.output));
    }
  }

  /** With valid texts and agreeing lengths every slice of a diff falls on a character boundary. */
  lemma {:induction false} AgreeingDiffFits(prev: Projection, next: Projection, snaps: Snapshots)
    requires SnapshotsAgree(snaps, prev.thread.turns)
    requires AllTextsValid(prev.thread.turns) && AllTextsValid(next.thread.turns)
    ensures DiffFits(prev, next, snaps)
  {
    hide ItemFits, ValidTexts, Agrees, ItemsById, TurnsById;
    forall t, i | t in next.thread.turns && i in t.items
      ensures OneItemFits(next.activeTurnId == Some(t.id), PrevItems(prev.thread.turns, t.id), i, snaps)
    {
      var items := PrevItems(prev.thread.turns, t.id);
      if i.id in items {
        var u := TurnsById(prev.thread.turns)[t.id];
        assert u in prev.thread.turns && items[i.id] in u.items;
        AgreeingItemFits(items[i.id], i, Lookup(snaps, i.id));
      }
    }
  }

  // ----- Any length -----

  /** What is sent of a text is what lies past the recorded length, if up to there nothing was rewritten. */
  lemma SentExactly(prev: Text, next: Text, len: nat, delta: Text)
    ensures Growth(prev, next, len) == Some(delta) <==>
              && len < |next| && delta == next[len..]
              && forall i :: 0 <= i < len && i < |prev| ==> next[i] == prev[i]
  {
    var common := if len < |prev| then len else |prev|;
    if len < |next| {
      assert prev[..common] <= next <==> forall i :: 0 <= i < common ==> prev[..common][i] == next[i];
    }
  }

  /** Valid texts are sliced inside a character exactly if the recorded length cuts one, in the old text or the new. */
  lemma SlicesExactly(prev: Text, next: Text, len: nat)
    requires Valid(prev) && Valid(next)
    ensures GrowthFits(prev, next, len) <==>
              len < |next| ==>
                && (len < |prev| ==> Valid(prev[..len]))
                && ((forall i :: 0 <= i < len && i < |prev| ==> next[i] == prev[i]) ==> Valid(next[..len]))
  {
    hide Valid, IsCharBoundary;
    var common := if len < |prev| then len else |prev|;
    if len < |next| {
      BoundaryIffValidPrefix(prev, common);
      BoundaryIffValidPrefix(next, len);
      assert common == |prev| ==> prev[..common] == prev;
      assert prev[..common] <= next <==> forall i :: 0 <= i < common ==> prev[..common][i] == next[i];
    }
  }

  /** Lengths agree with parts if each part that has one has its own; a part without one is harmless. */
  lemma LensAgreeExactly(lens: Option<seq<nat>>, parts: seq<Text>)
    ensures LensAgree(lens, parts) <==>
              lens.Some? ==> forall i :: 0 <= i < |parts| && i < |lens.value| ==> lens.value[i] == |parts[i]|
  {
  }

  // ----- A stale length -----

  /** An extension of `prev` that a recorded length `len` other than its own makes the diff misread. */
  function Misread(prev: Text, len: nat): Text {
    prev + seq(if len < |prev| then 1 else len + 1 - |prev|, _ => 0x2E)
  }

  /**
    It is reported as growth by what is past `len`, which is too much or too little; and reading
    that panics exactly when `len` lies inside a character of the old text.
   */
  lemma MisreadText(prev: Text, len: nat)
    requires len != |prev|
    ensures var next := Misread(prev, len);
            && prev < next && |next| > len
            && Growth(prev, next, len) == Some(next[len..]) && |prev| + |next[len..]| != |next|
            && (Valid(prev) ==> Valid(next))
            && (GrowthFits(prev, next, len) <==> len > |prev| || IsCharBoundary(prev, len))
  {
    var dots: Text := seq(if len < |prev| then 1 else len + 1 - |prev|, _ => 0x2E);
    var next := prev + dots;
    assert prev[..if len < |prev| then len else |prev|] <= next;
    AsciiIsValid(dots);
    if Valid(prev) {
      ValidConcat(prev, dots);
    }
    assert next[len] == if len < |prev| then prev[len] else 0x2E;
  }

  /** One part extended so that it is misread, and is all that grows. */
  lemma PartsMisread(parts: seq<Text>, lens: Option<seq<nat>>) returns (next: seq<Text>, i: nat)
    requires !LensAgree(lens, parts)
    ensures |next| == |parts| && AppendOnly(parts, next) && (AllValid(parts) ==> AllValid(next))
    ensures i < |parts| && next[i] != parts[i]
    ensures GrowsBelow(parts, next, lens, |next|) && |Grown(parts, next, lens, i)| != |next[i]|
  {
    hide Misread, Growth, Valid;
    i :| 0 <= i < |parts| && LengthAt(lens, i, |parts[i]|) != |parts[i]|;
    var len := LengthAt(lens, i, |parts[i]|);
    MisreadText(parts[i], len);
    next := parts[i := Misread(parts[i], len)];
    assert PartGrowth(parts, next, lens, i).Some?;
  }

  lemma SummaryMisread(turnId: string, item: ThreadItem, snap: ItemTextSnapshot) returns (next: ThreadItem)
    requires item.Reasoning? && !LensAgree(SummaryLens(Some(snap)), item.summary)
    ensures next.Reasoning? && next.id == item.id && (ValidTexts(item) ==> ValidTexts(next))
    ensures next != item && ReportableAs(Whole, item, next)
    ensures !SameText(Follow(item, ItemDiff(turnId, item, next, Some(snap))), next)
  {
    hide ReasoningEvents, Fold, NewThought, GrowsBelow, Grown, LensAgree, AllValid, PartGrows, SummaryLens, ThoughtLens;
    var parts, lens := item.summary, SummaryLens(Some(snap));
    var more, i := PartsMisread(parts, lens);
    next := item.(summary := more);
    FollowReasoning(turnId, item, next, Some(snap));
    var r := Follow(item, ReasoningEvents(turnId, item, next, Some(snap)));
    assert r.summary[i] == Grown(parts, more, lens, i);
  }

  lemma ThoughtMisread(turnId: string, item: ThreadItem, snap: ItemTextSnapshot) returns (next: ThreadItem)
    requires item.Reasoning? && !LensAgree(ThoughtLens(Some(snap)), item.thoughts)
    ensures next.Reasoning? && next.id == item.id && (ValidTexts(item) ==> ValidTexts(next))
    ensures next != item && ReportableAs(Whole, item, next)
    ensures !SameText(Follow(item, ItemDiff(turnId, item, next, Some(snap))), next)
  {
    hide ReasoningEvents, Fold, NewThought, GrowsBelow, Grown, LensAgree, AllValid, PartGrows, SummaryLens, ThoughtLens;
    var parts, lens := item.thoughts, ThoughtLens(Some(snap));
    var more, i := PartsMisread(parts, lens);
    next := item.(thoughts := more);
    FollowReasoning(turnId, item, next, Some(snap));
    var r := Follow(item, ReasoningEvents(turnId, item, next, Some(snap)));
    assert r.thoughts[i] == Grown(parts, more, lens, i);
  }

  lemma ValidOutput(item: ThreadItem)
    requires item.CommandExecution?
    ensures ValidTexts(item) ==> Valid(OutputText(item.output))
  {
  }

  /** A text snapshot that does not agree with an item misreports some extension of it, itself reportable. */
  lemma ItemMisread(turnId: string, item: ThreadItem, snap: ItemTextSnapshot, shown: ThreadItem)
    returns (next: ThreadItem)
    requires !Agrees(Some(snap), item) && SameText(shown, item)
    ensures next.id == item.id && (ValidTexts(item) ==> ValidTexts(next))
    ensures next != item && SameButText(item, next) && ReportableAs(Whole, item, next)
    ensures !SameText(Follow(shown, ItemDiff(turnId, item, next, Some(snap))), next)
  {
    hide Growth, ReasoningEvents, LensAgree, Misread, Valid, Fold, AllValid;
    match item
    case AgentMessage(_, text, _) =>
      MisreadText(text, snap.agentTextLen);
      next := item.(text := Misread(text, snap.agentTextLen));
      FollowOne(shown, ItemDiff(turnId, item, next, Some(snap)));
    case Plan(_, text) =>
      MisreadText(text, snap.planTextLen);
      next := Plan(item.id, Misread(text, snap.planTextLen));
      FollowOne(shown, ItemDiff(turnId, item, next, Some(snap)));
    case CommandExecution(_, _, output, _) =>
      ValidOutput(item);
      MisreadText(OutputText(output), snap.outputLen);
      next := item.(output := Some(Misread(OutputText(output), snap.outputLen)));
      FollowOne(shown, ItemDiff(turnId, item, next, Some(snap)));
    case Reasoning(_, summary, _) =>
      if LensAgree(SummaryLens(Some(snap)), summary) {
        next := ThoughtMisread(turnId, item, snap);
      } else {
        next := SummaryMisread(turnId, item, snap);
      }
    case _ => assert false;
  }

  /**
    One item: with a given text snapshot every reportable change is replayed right if and only
    if the snapshot agrees.
   */
  lemma ItemSnapshotMustAgree(x: Extent, turnId: string, item: ThreadItem, snap: ItemTextSnapshot)
    ensures (forall next: ThreadItem :: next.id == item.id && ReportableAs(x, item, next) ==>
               Same(x, Follow(item, ItemDiff(turnId, item, next, Some(snap))), next))
       <==> Agrees(Some(snap), item)
  {
    hide ItemDiff, Agrees, Reportable, RestReported, Fold;
    if Agrees(Some(snap), item) {
      forall next: ThreadItem | next.id == item.id && ReportableAs(x, item, next)
        ensures Same(x, Follow(item, ItemDiff(turnId, item, next, Some(snap))), next)
      {
        ItemReplay(x, turnId, item, next, Some(snap), item);
      }
    } else {
      var next := ItemMisread(turnId, item, snap, item);
      assert next.id == item.id && ReportableAs(x, item, next);
    }
  }

  // ----- A whole thread -----

  /** A thread of one turn in progress with one item. */
  function OneItemProjection(id: string, status: ThreadStatus, turnId: string, item: ThreadItem): Projection {
    Projection(Thread(id, status, [Turn(turnId, [item], InProgress, None)]), Some(turnId), [], [])
  }

  lemma OneItemEventsOnly(prev: Projection, id: string, status: ThreadStatus, turnId: string, item: ThreadItem,
                          snaps: Snapshots, items: Items)
    ensures var next := OneItemProjection(id, status, turnId, item);
            ReplayItems(items, DiffEvents(prev, next, snaps)) ==
            ReplayItems(items, OneItemEvents(turnId, true, PrevItems(prev.thread.turns, turnId), item, snaps))
  {
    hide DiffEvents, OneItemEvents, PrevItems, Fold;
    var next := OneItemProjection(id, status, turnId, item);
    var turns := next.thread.turns;
    DiffTouchesItems(prev, next, snaps, items);
    assert turns[..0] == [] && turns[0].items[..0] == [];
    var events := OneItemEvents(turnId, true, PrevItems(prev.thread.turns, turnId), item, snaps);
    assert ItemEvents(turnId, true, PrevItems(prev.thread.turns, turnId), [item], snaps) == [] + events;
    assert [] + events == events;
    assert TurnItemEvents(prev.thread.turns, Some(turnId), turns, snaps) == [] + events;
  }

  /** What a diff can report: ids distinct, texts valid, every change reportable. */
  ghost predicate WellReported(x: Extent, prev: Projection, next: Projection) {
    && Distinct(next) && AllTextsValid(next.thread.turns)
    && AllReportable(x, prev.thread.turns, next.activeTurnId, next.thread.turns)
  }

  /** A stale length of any shown item leads to a well-reported next state that is not shown. */
  lemma {:induction false} ProjectionMisread(
      prev: Projection, snaps: Snapshots, items: Items, status: ThreadStatus, t: Turn, item: ThreadItem)
    returns (next: Projection, changed: ThreadItem)
    requires Distinct(prev) && AllTextsValid(prev.thread.turns) && ShowsAll(OfText, items, prev.thread.turns)
    requires t in prev.thread.turns && item in t.items && !Agrees(Lookup(snaps, item.id), item)
    ensures next == OneItemProjection(prev.thread.id, status, t.id, changed)
    ensures ValidTexts(changed) && SameButText(item, changed)
    ensures forall x :: WellReported(x, prev, next)
    ensures forall x :: !ShowsAll(x, ReplayItems(items, DiffEvents(prev, next, snaps)), next.thread.turns)
  {
    hide DiffEvents, ItemDiff, Agrees, PrevItems, SameText, ReportableAs, ValidTexts, Fold;
    assert Shows(OfText, items, t.id, item);
    var key := (t.id, item.id);
    RecordedIfStale(snaps, item);
    changed := ItemMisread(t.id, item, snaps[item.id], items[key]);
    next := OneItemProjection(prev.thread.id, status, t.id, changed);
    PrevItemFound(prev, t, item);
    OneItemEventsOnly(prev, prev.thread.id, status, t.id, changed, snaps, items);
    var events := OneItemEvents(t.id, true, PrevItems(prev.thread.turns, t.id), changed, snaps);
    OneItemEventsAbout(t.id, true, PrevItems(prev.thread.turns, t.id), changed, snaps);
    ReplayAbout(items, key, events);
    assert !Shows(OfText, ReplayItems(items, events), t.id, changed);
    assert next.thread.turns[0] in next.thread.turns && changed in next.thread.turns[0].items;
    WholeImpliesText(item, changed);
    forall x ensures WellReported(x, prev, next) {
      assert x == Whole || x == OfText;
    }
    var after := ReplayItems(items, DiffEvents(prev, next, snaps));
    forall x ensures !ShowsAll(x, after, next.thread.turns) {
      if x.Whole? && ShowsAll(x, after, next.thread.turns) {
        ShownWhole(after, next.thread.turns);
        assert false;
      }
    }
  }

  lemma RecordedIfStale(snaps: Snapshots, item: ThreadItem)
    requires !Agrees(Lookup(snaps, item.id), item)
    ensures item.id in snaps
  {
  }

  lemma WholeImpliesText(prev: ThreadItem, next: ThreadItem)
    requires ReportableAs(Whole, prev, next)
    ensures ReportableAs(OfText, prev, next)
  {
  }

  lemma ShownWhole(items: Items, turns: seq<Turn>)
    requires ShowsAll(Whole, items, turns)
    ensures ShowsAll(OfText, items, turns)
  {
    forall t, i | t in turns && i in t.items ensures Shows(OfText, items, t.id, i) {
      assert Shows(Whole, items, t.id, i);
    }
  }

  /**
    The text snapshots decide the future: from a state that is shown, every well-reported next
    state is reached without a panic and shown, if and only if they agree with the state's items.
   */
  lemma {:induction false} SnapshotsMustAgree(x: Extent, prev: Projection, snaps: Snapshots, items: Items)
    requires Distinct(prev) && AllTextsValid(prev.thread.turns) && ShowsAll(x, items, prev.thread.turns)
    ensures (forall next :: WellReported(x, prev, next) ==>
               && DiffFits(prev, next, snaps)
               && ShowsAll(x, ReplayItems(items, DiffEvents(prev, next, snaps)), next.thread.turns))
       <==> SnapshotsAgree(snaps, prev.thread.turns)
  {
    hide DiffEvents, DiffFits, Agrees, AllReportable, AllTextsValid, ShowsAll, Fold;
    var turns := prev.thread.turns;
    if SnapshotsAgree(snaps, turns) {
      forall next | WellReported(x, prev, next)
        ensures DiffFits(prev, next, snaps)
        ensures ShowsAll(x, ReplayItems(items, DiffEvents(prev, next, snaps)), next.thread.turns)
      {
        AgreeingDiffFits(prev, next, snaps);
        DiffReplay(x, prev, next, snaps, items);
      }
    } else {
      var t, item :| t in turns && item in t.items && !Agrees(Lookup(snaps, item.id), item);
      if x.Whole? {
        ShownWhole(items, turns);
      }
      var next, _ := ProjectionMisread(prev, snaps, items, prev.thread.status, t, item);
      assert WellReported(x, prev, next);
    }
  }
}
