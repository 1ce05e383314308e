/**
  Diffing two projections into events: the `diff_*` functions of bridge.rs. Each loop that
  pushes events is a method proved equal to a function of its inputs.
 */
module Diff {
  import opened Wrappers
  import opened Thread
  import opened Utf8

  /** Rust panics when a string is sliced inside a character; the diff and its events are then lost. */
  datatype Panic = SliceInsideCharacter

  /** The notifications a diff can emit; the thread they are about is the bridge's business. */
  datatype Event =
    | TurnStarted(turn: Turn)
    | TurnCompleted(turn: Turn)
    | ItemStarted(turnId: string, item: ThreadItem)
    | ItemCompleted(turnId: string, item: ThreadItem)
    | AgentMessageDelta(turnId: string, itemId: string, delta: Text)
    | PlanDelta(turnId: string, itemId: string, delta: Text)
    | ReasoningSummaryPartAdded(turnId: string, itemId: string, index: nat)
    | ReasoningSummaryTextDelta(turnId: string, itemId: string, delta: Text, index: nat)
    | ReasoningTextDelta(turnId: string, itemId: string, delta: Text, index: nat)
    | CommandExecutionOutputDelta(turnId: string, itemId: string, delta: Text)
    | ServerRequestResolved(requestId: string)
    | ThreadStatusChanged(status: ThreadStatus)

  /** The text lengths of one item when it was last reported. */
  datatype ItemTextSnapshot = ItemTextSnapshot(
    agentTextLen: nat, planTextLen: nat, summaryLens: seq<nat>, thoughtLens: seq<nat>, outputLen: nat)

  type Snapshots = map<string, ItemTextSnapshot>

  function Lengths(texts: seq<Text>): (r: seq<nat>)
    ensures |r| == |texts| && forall i :: 0 <= i < |r| ==> r[i] == |texts[i]|
  {
    seq(|texts|, i requires 0 <= i < |texts| => |texts[i]|)
  }

  function OutputText(output: Option<Text>): Text {
    if output.Some? then output.value else []
  }

  function SnapshotItem(item: ThreadItem): ItemTextSnapshot {
    var zero := ItemTextSnapshot(0, 0, [], [], 0);
    match item
    case AgentMessage(_, text, _) => zero.(agentTextLen := |text|)
    case Plan(_, text) => zero.(planTextLen := |text|)
    case Reasoning(_, summary, thoughts) => zero.(summaryLens := Lengths(summary), thoughtLens := Lengths(thoughts))
    case CommandExecution(_, _, output, _) => zero.(outputLen := |OutputText(output)|)
    case _ => zero
  }

  // ----- One item -----

  /** The text past `prevLen`, when `next` is longer than that and starts like `prev`. */
  function Growth(prev: Text, next: Text, prevLen: nat): (d: Option<Text>)
    ensures d.Some? ==> d.value != []
  {
    var common := if prevLen < |prev| then prevLen else |prev|;
    if |next| > prevLen && prev[..common] <= next then Some(next[prevLen..]) else None
  }

  /** Do the slices that `Growth` is read off fall on character boundaries? */
  predicate GrowthFits(prev: Text, next: Text, prevLen: nat) {
    var common := if prevLen < |prev| then prevLen else |prev|;
    |next| > prevLen ==>
      && IsCharBoundary(prev, common)
      && (prev[..common] <= next ==> IsCharBoundary(next, prevLen))
  }

  method ReadGrowth(prev: Text, next: Text, prevLen: nat) returns (r: Result<Option<Text>, Panic>)
    ensures r == if GrowthFits(prev, next, prevLen) then Ok(Growth(prev, next, prevLen)) else Err(SliceInsideCharacter)
  {
    if |next| > prevLen {
      var common := if prevLen < |prev| then prevLen else |prev|;
      if !IsCharBoundary(prev, common) {
        return Err(SliceInsideCharacter);
      }
      if prev[..common] <= next {
        if !IsCharBoundary(next, prevLen) {
          return Err(SliceInsideCharacter);
        }
        return Ok(Some(next[prevLen..]));
      }
    }
    return Ok(None);
  }

  function LengthAt(lens: Option<seq<nat>>, i: nat, default: nat): nat {
    if lens.Some? && i < |lens.value| then lens.value[i] else default
  }

  function SummaryPartEvents(
      turnId: string, id: string, prev: seq<Text>, next: seq<Text>, lens: Option<seq<nat>>, i: nat): seq<Event>
    requires i < |next|
  {
    if i >= |prev| then
      [ReasoningSummaryPartAdded(turnId, id, i)]
      + if next[i] != [] then [ReasoningSummaryTextDelta(turnId, id, next[i], i)] else []
    else
      match Growth(prev[i], next[i], LengthAt(lens, i, |prev[i]|))
      case Some(delta) => [ReasoningSummaryTextDelta(turnId, id, delta, i)]
      case None => []
  }

  function ThoughtPartEvents(
      turnId: string, id: string, prev: seq<Text>, next: seq<Text>, lens: Option<seq<nat>>, i: nat): seq<Event>
    requires i < |next|
  {
    if i >= |prev| then
      if next[i] != [] then [ReasoningTextDelta(turnId, id, next[i], i)] else []
    else
      match Growth(prev[i], next[i], LengthAt(lens, i, |prev[i]|))
      case Some(delta) => [ReasoningTextDelta(turnId, id, delta, i)]
      case None => []
  }

  function SummaryEvents(
      turnId: string, id: string, prev: seq<Text>, next: seq<Text>, lens: Option<seq<nat>>, n: nat): seq<Event>
    requires n <= |next|
  {
    if n == 0 then []
    else SummaryEvents(turnId, id, prev, next, lens, n - 1) + SummaryPartEvents(turnId, id, prev, next, lens, n - 1)
  }

  function ThoughtEvents(
      turnId: string, id: string, prev: seq<Text>, next: seq<Text>, lens: Option<seq<nat>>, n: nat): seq<Event>
    requires n <= |next|
  {
    if n == 0 then []
    else ThoughtEvents(turnId, id, prev, next, lens, n - 1) + ThoughtPartEvents(turnId, id, prev, next, lens, n - 1)
  }

  function SummaryLens(snap: Option<ItemTextSnapshot>): Option<seq<nat>> {
    if snap.Some? then Some(snap.value.summaryLens) else None
  }

  function ThoughtLens(snap: Option<ItemTextSnapshot>): Option<seq<nat>> {
    if snap.Some? then Some(snap.value.thoughtLens) else None
  }

  function ReasoningEvents(
      turnId: string, prev: ThreadItem, next: ThreadItem, snap: Option<ItemTextSnapshot>): seq<Event>
    requires prev.Reasoning? && next.Reasoning?
  {
    SummaryEvents(turnId, next.id, prev.summary, next.summary, SummaryLens(snap), |next.summary|)
    + ThoughtEvents(turnId, next.id, prev.thoughts, next.thoughts, ThoughtLens(snap), |next.thoughts|)
  }

  function ItemDiff(turnId: string, prev: ThreadItem, next: ThreadItem, snap: Option<ItemTextSnapshot>): seq<Event> {
    var completed := [ItemCompleted(turnId, next)];
    match (prev, next)
    case (AgentMessage(_, prevText, _), AgentMessage(id, nextText, _)) =>
      (match Growth(prevText, nextText, if snap.Some? then snap.value.agentTextLen else |prevText|)
       case Some(delta) => [AgentMessageDelta(turnId, id, delta)]
       case None => completed)
    case (Plan(_, prevText), Plan(id, nextText)) =>
      (match Growth(prevText, nextText, if snap.Some? then snap.value.planTextLen else |prevText|)
       case Some(delta) => [PlanDelta(turnId, id, delta)]
       case None => completed)
    case (Reasoning(_, _, _), Reasoning(_, _, _)) =>
      var deltas := ReasoningEvents(turnId, prev, next, snap);
      if deltas != [] then deltas else completed
    case (CommandExecution(_, prevStatus, prevOutput, _), CommandExecution(id, nextStatus, nextOutput, _)) =>
      if prevStatus != nextStatus then completed
      else
        var prevText := OutputText(prevOutput);
        (match Growth(prevText, OutputText(nextOutput), if snap.Some? then snap.value.outputLen else |prevText|)
         case Some(delta) => [CommandExecutionOutputDelta(turnId, id, delta)]
         case None => if prevOutput != nextOutput then completed else [])
    case _ => completed
  }

  predicate PartsFit(prev: seq<Text>, next: seq<Text>, lens: Option<seq<nat>>, n: nat)
    requires n <= |next|
  {
    forall i :: 0 <= i < n && i < |prev| ==> GrowthFits(prev[i], next[i], LengthAt(lens, i, |prev[i]|))
  }

  predicate ReasoningFits(prev: ThreadItem, next: ThreadItem, snap: Option<ItemTextSnapshot>)
    requires prev.Reasoning? && next.Reasoning?
  {
    && PartsFit(prev.summary, next.summary, SummaryLens(snap), |next.summary|)
    && PartsFit(prev.thoughts, next.thoughts, ThoughtLens(snap), |next.thoughts|)
  }

  /** Does every slice that `diff_item` takes of the two items fall on a character boundary? */
  predicate ItemFits(prev: ThreadItem, next: ThreadItem, snap: Option<ItemTextSnapshot>) {
    match (prev, next)
    case (AgentMessage(_, prevText, _), AgentMessage(_, nextText, _)) =>
      GrowthFits(prevText, nextText, if snap.Some? then snap.value.agentTextLen else |prevText|)
    case (Plan(_, prevText), Plan(_, nextText)) =>
      GrowthFits(prevText, nextText, if snap.Some? then snap.value.planTextLen else |prevText|)
    case (Reasoning(_, _, _), Reasoning(_, _, _)) => ReasoningFits(prev, next, snap)
    case (CommandExecution(_, prevStatus, prevOutput, _), CommandExecution(_, nextStatus, nextOutput, _)) =>
      prevStatus == nextStatus ==>
        GrowthFits(OutputText(prevOutput), OutputText(nextOutput),
                   if snap.Some? then snap.value.outputLen else |OutputText(prevOutput)|)
    case _ => true
  }

  /** The reasoning case of `diff_item`: summary parts, then thoughts, one by one. */
  method DiffReasoning(turnId: string, prev: ThreadItem, next: ThreadItem, snap: Option<ItemTextSnapshot>)
    returns (r: Result<seq<Event>, Panic>)
    requires prev.Reasoning? && next.Reasoning?
    ensures r == if ReasoningFits(prev, next, snap) then Ok(ReasoningEvents(turnId, prev, next, snap))
                 else Err(SliceInsideCharacter)
  {
    hide SummaryPartEvents, ThoughtPartEvents, GrowthFits;
    var deltas: seq<Event> := [];
    var i := 0;
    while i < |next.summary|
      invariant 0 <= i <= |next.summary|
      invariant PartsFit(prev.summary, next.summary, SummaryLens(snap), i)
      invariant deltas == SummaryEvents(turnId, next.id, prev.summary, next.summary, SummaryLens(snap), i)
    {
      var part := DiffSummaryPart(turnId, next.id, prev.summary, next.summary, SummaryLens(snap), i);
      if part.Err? {
        return part;
      }
      deltas := deltas + part.value;
      i := i + 1;
    }
    ghost var summaries := deltas;
    i := 0;
    while i < |next.thoughts|
      invariant 0 <= i <= |next.thoughts|
      invariant PartsFit(prev.thoughts, next.thoughts, ThoughtLens(snap), i)
      invariant deltas == summaries
                          + ThoughtEvents(turnId, next.id, prev.thoughts, next.thoughts, ThoughtLens(snap), i)
    {
      var part := DiffThoughtPart(turnId, next.id, prev.thoughts, next.thoughts, ThoughtLens(snap), i);
      if part.Err? {
        return part;
      }
      deltas := deltas + part.value;
      i := i + 1;
    }
    return Ok(deltas);
  }

  method DiffSummaryPart(
      turnId: string, id: string, prev: seq<Text>, next: seq<Text>, lens: Option<seq<nat>>, i: nat)
    returns (r: Result<seq<Event>, Panic>)
    requires i < |next|
    ensures r == if i < |prev| ==> GrowthFits(prev[i], next[i], LengthAt(lens, i, |prev[i]|))
                 then Ok(SummaryPartEvents(turnId, id, prev, next, lens, i)) else Err(SliceInsideCharacter)
  {
    hide GrowthFits, Growth;
    if i >= |prev| {
      var events := [ReasoningSummaryPartAdded(turnId, id, i)];
      if next[i] != [] {
        events := events + [ReasoningSummaryTextDelta(turnId, id, next[i], i)];
      }
      assert events == SummaryPartEvents(turnId, id, prev, next, lens, i);
      return Ok(events);
    }
    var delta := ReadGrowth(prev[i], next[i], LengthAt(lens, i, |prev[i]|));
    if delta.Err? {
      return Err(delta.error);
    }
    return Ok(if delta.value.Some? then [ReasoningSummaryTextDelta(turnId, id, delta.value.value, i)] else []);
  }

  method DiffThoughtPart(
      turnId: string, id: string, prev: seq<Text>, next: seq<Text>, lens: Option<seq<nat>>, i: nat)
    returns (r: Result<seq<Event>, Panic>)
    requires i < |next|
    ensures r == if i < |prev| ==> GrowthFits(prev[i], next[i], LengthAt(lens, i, |prev[i]|))
                 then Ok(ThoughtPartEvents(turnId, id, prev, next, lens, i)) else Err(SliceInsideCharacter)
  {
    hide GrowthFits, Growth;
    if i >= |prev| {
      return Ok(if next[i] != [] then [ReasoningTextDelta(turnId, id, next[i], i)] else []);
    }
    var delta := ReadGrowth(prev[i], next[i], LengthAt(lens, i, |prev[i]|));
    if delta.Err? {
      return Err(delta.error);
    }
    return Ok(if delta.value.Some? then [ReasoningTextDelta(turnId, id, delta.value.value, i)] else []);
  }

  method DiffItem(
      turnId: string, prev: ThreadItem, next: ThreadItem, snap: Option<ItemTextSnapshot>, events: seq<Event>)
    returns (r: Result<seq<Event>, Panic>)
    ensures r == if ItemFits(prev, next, snap) then Ok(events + ItemDiff(turnId, prev, next, snap))
                 else Err(SliceInsideCharacter)
  {
    hide Growth, GrowthFits, ReasoningEvents, ReasoningFits;
    if prev.AgentMessage? && next.AgentMessage? {
      var delta := ReadGrowth(prev.text, next.text, if snap.Some? then snap.value.agentTextLen else |prev.text|);
      if delta.Err? {
        return Err(delta.error);
      }
      if delta.value.Some? {
        return Ok(events + [AgentMessageDelta(turnId, next.id, delta.value.value)]);
      }
    } else if prev.Plan? && next.Plan? {
      var delta := ReadGrowth(prev.text, next.text, if snap.Some? then snap.value.planTextLen else |prev.text|);
      if delta.Err? {
        return Err(delta.error);
      }
      if delta.value.Some? {
        return Ok(events + [PlanDelta(turnId, next.id, delta.value.value)]);
      }
    } else if prev.Reasoning? && next.Reasoning? {
      var deltas := DiffReasoning(turnId, prev, next, snap);
      if deltas.Err? {
        return deltas;
      }
      if deltas.value != [] {
        return Ok(events + deltas.value);
      }
    } else if prev.CommandExecution? && next.CommandExecution? && prev.status == next.status {
      var before := OutputText(prev.output);
      var delta := ReadGrowth(before, OutputText(next.output), if snap.Some? then snap.value.outputLen else |before|);
      if delta.Err? {
        return Err(delta.error);
      }
      if delta.value.Some? {
        return Ok(events + [CommandExecutionOutputDelta(turnId, next.id, delta.value.value)]);
      }
      if prev.output == next.output {
        assert events + [] == events;
        return Ok(events);
      }
    }
    return Ok(events + [ItemCompleted(turnId, next)]);
  }

  // ----- Items of all turns -----

  /** Collecting into a hash map by id: of several with one id the last stays. */
  function ItemsById(items: seq<ThreadItem>): (m: map<string, ThreadItem>)
    ensures forall id :: id in m ==> m[id] in items && m[id].id == id
    ensures forall i :: i in items ==> i.id in m
  {
    if items == [] then map[]
    else
      var last := items[|items| - 1];
      ItemsById(items[..|items| - 1])[last.id := last]
  }

  function TurnsById(turns: seq<Turn>): (m: map<string, Turn>)
    ensures forall id :: id in m ==> m[id] in turns && m[id].id == id
    ensures forall t :: t in turns ==> t.id in m
  {
    if turns == [] then map[]
    else
      var last := turns[|turns| - 1];
      TurnsById(turns[..|turns| - 1])[last.id := last]
  }

  function PrevItems(prev: seq<Turn>, turnId: string): map<string, ThreadItem> {
    if turnId in TurnsById(prev) then ItemsById(TurnsById(prev)[turnId].items) else map[]
  }

  function Lookup(snaps: Snapshots, id: string): Option<ItemTextSnapshot> {
    if id in snaps then Some(snaps[id]) else None
  }

  function OneItemEvents(
      turnId: string, active: bool, prev: map<string, ThreadItem>, item: ThreadItem, snaps: Snapshots): seq<Event> {
    if item.id !in prev then [ItemStarted(turnId, item), ItemCompleted(turnId, item)]
    else if prev[item.id] == item then []
    else if active then ItemDiff(turnId, prev[item.id], item, Lookup(snaps, item.id))
    else [ItemCompleted(turnId, item)]
  }

  function ItemEvents(
      turnId: string, active: bool, prev: map<string, ThreadItem>, items: seq<ThreadItem>, snaps: Snapshots): seq<Event>
  {
    if items == [] then []
    else ItemEvents(turnId, active, prev, items[..|items| - 1], snaps)
         + OneItemEvents(turnId, active, prev, items[|items| - 1], snaps)
  }

  function TurnEvents(prev: seq<Turn>, activeTurnId: Option<string>, turn: Turn, snaps: Snapshots): seq<Event> {
    ItemEvents(turn.id, activeTurnId == Some(turn.id), PrevItems(prev, turn.id), turn.items, snaps)
  }

  function TurnItemEvents(
      prev: seq<Turn>, activeTurnId: Option<string>, next: seq<Turn>, snaps: Snapshots): seq<Event> {
    if next == [] then []
    else TurnItemEvents(prev, activeTurnId, next[..|next| - 1], snaps)
         + TurnEvents(prev, activeTurnId, next[|next| - 1], snaps)
  }

  predicate OneItemFits(active: bool, prev: map<string, ThreadItem>, item: ThreadItem, snaps: Snapshots) {
    active && item.id in prev && prev[item.id] != item ==> ItemFits(prev[item.id], item, Lookup(snaps, item.id))
  }

  predicate TurnFits(prev: seq<Turn>, activeTurnId: Option<string>, turn: Turn, snaps: Snapshots) {
    forall i :: i in turn.items ==>
      OneItemFits(activeTurnId == Some(turn.id), PrevItems(prev, turn.id), i, snaps)
  }

  /** Can the diff be taken without slicing inside a character? */
  predicate DiffFits(prev: Projection, next: Projection, snaps: Snapshots) {
    forall t :: t in next.thread.turns ==> TurnFits(prev.thread.turns, next.activeTurnId, t, snaps)
  }

  method DiffOneItem(
      turnId: string, active: bool, prev: map<string, ThreadItem>, item: ThreadItem, snaps: Snapshots,
      events: seq<Event>)
    returns (r: Result<seq<Event>, Panic>)
    ensures r == if OneItemFits(active, prev, item, snaps)
                 then Ok(events + OneItemEvents(turnId, active, prev, item, snaps)) else Err(SliceInsideCharacter)
  {
    hide ItemDiff, ItemFits;
    if item.id in prev {
      if prev[item.id] == item {
        assert events + [] == events;
        return Ok(events);
      }
      if active {
        r := DiffItem(turnId, prev[item.id], item, Lookup(snaps, item.id), events);
        return;
      }
      return Ok(events + [ItemCompleted(turnId, item)]);
    }
    return Ok(events + [ItemStarted(turnId, item), ItemCompleted(turnId, item)]);
  }

  method DiffOneTurn(prev: seq<Turn>, activeTurnId: Option<string>, turn: Turn, snaps: Snapshots, events: seq<Event>)
    returns (r: Result<seq<Event>, Panic>)
    ensures r == if TurnFits(prev, activeTurnId, turn, snaps)
                 then Ok(events + TurnEvents(prev, activeTurnId, turn, snaps)) else Err(SliceInsideCharacter)
  {
    hide OneItemEvents, OneItemFits, PrevItems;
    var prevItems := PrevItems(prev, turn.id);
    var active := activeTurnId == Some(turn.id);
    var sofar := events;
    var i := 0;
    while i < |turn.items|
      invariant 0 <= i <= |turn.items|
      invariant forall k :: 0 <= k < i ==> OneItemFits(active, prevItems, turn.items[k], snaps)
      invariant sofar == events + ItemEvents(turn.id, active, prevItems, turn.items[..i], snaps)
    {
      r := DiffOneItem(turn.id, active, prevItems, turn.items[i], snaps, sofar);
      if r.Err? {
        assert turn.items[i] in turn.items;
        return;
      }
      sofar := r.value;
      assert turn.items[..i + 1][..i] == turn.items[..i];
      i := i + 1;
    }
    assert turn.items[..i] == turn.items;
    return Ok(sofar);
  }

  method DiffTurnItems(prev: Projection, next: Projection, snaps: Snapshots, events: seq<Event>)
    returns (r: Result<seq<Event>, Panic>)
    ensures r == if DiffFits(prev, next, snaps)
                 then Ok(events + TurnItemEvents(prev.thread.turns, next.activeTurnId, next.thread.turns, snaps))
                 else Err(SliceInsideCharacter)
  {
    hide TurnEvents, TurnFits;
    var sofar := events;
    var turns := next.thread.turns;
    var i := 0;
    while i < |turns|
      invariant 0 <= i <= |turns|
      invariant forall k :: 0 <= k < i ==> TurnFits(prev.thread.turns, next.activeTurnId, turns[k], snaps)
      invariant sofar == events + TurnItemEvents(prev.thread.turns, next.activeTurnId, turns[..i], snaps)
    {
      r := DiffOneTurn(prev.thread.turns, next.activeTurnId, turns[i], snaps, sofar);
      if r.Err? {
        assert turns[i] in turns;
        return;
      }
      sofar := r.value;
      assert turns[..i + 1][..i] == turns[..i];
      i := i + 1;
    }
    assert turns[..i] == turns;
    return Ok(sofar);
  }

  // ----- Turn lifecycle, pending requests, status -----

  function Completing(turns: seq<Turn>, id: string): seq<Event> {
    match FindTurn(turns, id)
    case Some(turn) => [TurnCompleted(turn)]
    case None => []
  }

  function Starting(turns: seq<Turn>, id: string): seq<Event> {
    match FindTurn(turns, id)
    case Some(turn) => [TurnStarted(turn)]
    case None => []
  }

  function LifecycleEvents(prev: Projection, next: Projection): seq<Event> {
    var turns := next.thread.turns;
    match (prev.activeTurnId, next.activeTurnId)
    case (None, Some(id)) => Starting(turns, id)
    case (Some(id), None) => Completing(turns, id)
    case (Some(old'), Some(new')) => if old' != new' then Completing(turns, old') + Starting(turns, new') else []
    case (None, None) => []
  }

  function RequestIds(requests: seq<PendingRequest>): set<string> {
    set r | r in requests :: r.id
  }

  function WaitingIds(p: Projection): set<string> {
    RequestIds(p.pendingApprovals) + RequestIds(p.pendingUserInputs)
  }

  function ResolvedEvents(requests: seq<PendingRequest>, still: set<string>): seq<Event> {
    if requests == [] then []
    else
      var last := requests[|requests| - 1];
      ResolvedEvents(requests[..|requests| - 1], still)
      + if last.id !in still then [ServerRequestResolved(last.id)] else []
  }

  method DiffPendingRequests(
      requests: seq<PendingRequest>, still: set<string>, events: seq<Event>) returns (r: seq<Event>)
    ensures r == events + ResolvedEvents(requests, still)
  {
    r := events;
    var i := 0;
    while i < |requests|
      invariant 0 <= i <= |requests|
      invariant r == events + ResolvedEvents(requests[..i], still)
    {
      if requests[i].id !in still {
        r := r + [ServerRequestResolved(requests[i].id)];
      }
      assert requests[..i + 1][..i] == requests[..i];
      i := i + 1;
    }
    assert requests[..i] == requests;
  }

  function StatusEvents(prev: Projection, next: Projection): seq<Event> {
    if prev.thread.status != next.thread.status then [ThreadStatusChanged(next.thread.status)] else []
  }

  /** The requests of both kinds that are gone. */
  function RequestEvents(prev: Projection, next: Projection): seq<Event> {
    ResolvedEvents(prev.pendingApprovals, WaitingIds(next)) + ResolvedEvents(prev.pendingUserInputs, WaitingIds(next))
  }

  function DiffEvents(prev: Projection, next: Projection, snaps: Snapshots): seq<Event> {
    LifecycleEvents(prev, next)
    + TurnItemEvents(prev.thread.turns, next.activeTurnId, next.thread.turns, snaps)
    + RequestEvents(prev, next)
    + StatusEvents(prev, next)
  }

  // ----- Text snapshots -----

  function InsertItems(snaps: Snapshots, items: seq<ThreadItem>): Snapshots {
    if items == [] then snaps
    else
      var last := items[|items| - 1];
      InsertItems(snaps, items[..|items| - 1])[last.id := SnapshotItem(last)]
  }

  function InsertTurns(snaps: Snapshots, turns: seq<Turn>): Snapshots {
    if turns == [] then snaps
    else InsertItems(InsertTurns(snaps, turns[..|turns| - 1]), turns[|turns| - 1].items)
  }

  method RecordTexts(snaps: Snapshots, turns: seq<Turn>) returns (r: Snapshots)
    ensures r == InsertTurns(snaps, turns)
  {
    hide SnapshotItem;
    r := snaps;
    var i := 0;
    while i < |turns|
      invariant 0 <= i <= |turns|
      invariant r == InsertTurns(snaps, turns[..i])
    {
      var items := turns[i].items;
      ghost var before := r;
      var j := 0;
      while j < |items|
        invariant 0 <= j <= |items|
        invariant r == InsertItems(before, items[..j])
      {
        r := r[items[j].id := SnapshotItem(items[j])];
        assert items[..j + 1][..j] == items[..j];
        j := j + 1;
      }
      assert items[..j] == items && turns[..i + 1][..i] == turns[..i];
      i := i + 1;
    }
    assert turns[..i] == turns;
  }

  // ----- The whole diff, and the first appearance -----

  /** The events and the refreshed text snapshots; a panic leaves the snapshots, refreshed last, as they were. */
  method DiffProjections(
      prev: Projection, next: Projection, snaps: Snapshots) returns (r: Result<seq<Event>, Panic>, snaps': Snapshots)
    ensures DiffFits(prev, next, snaps) ==>
              r == Ok(DiffEvents(prev, next, snaps)) && snaps' == InsertTurns(snaps, next.thread.turns)
    ensures !DiffFits(prev, next, snaps) ==> r == Err(SliceInsideCharacter) && snaps' == snaps
  {
    hide TurnItemEvents, ResolvedEvents, LifecycleEvents, WaitingIds, InsertTurns, DiffFits;
    r := DiffTurnItems(prev, next, snaps, LifecycleEvents(prev, next));
    if r.Err? {
      return r, snaps;
    }
    ghost var sofar := r.value;
    var still := WaitingIds(next);
    var events := DiffPendingRequests(prev.pendingApprovals, still, r.value);
    events := DiffPendingRequests(prev.pendingUserInputs, still, events);
    assert events == sofar + RequestEvents(prev, next);
    if prev.thread.status != next.thread.status {
      events := events + [ThreadStatusChanged(next.thread.status)];
    }
    snaps' := RecordTexts(snaps, next.thread.turns);
    assert DiffFits(prev, next, snaps) ==> events == DiffEvents(prev, next, snaps);
    r := Ok(events);
  }

  function NewItemEvents(turnId: string, items: seq<ThreadItem>): seq<Event> {
    if items == [] then []
    else
      var last := items[|items| - 1];
      NewItemEvents(turnId, items[..|items| - 1]) + [ItemStarted(turnId, last), ItemCompleted(turnId, last)]
  }

  function FirstEvents(p: Projection): seq<Event> {
    if p.activeTurnId.None? then []
    else
      match FindTurn(p.thread.turns, p.activeTurnId.value)
      case None => []
      case Some(turn) => [TurnStarted(turn)] + NewItemEvents(turn.id, turn.items)
  }

  method BootstrapEvents(p: Projection) returns (events: seq<Event>, snaps: Snapshots)
    ensures events == FirstEvents(p)
    ensures snaps == InsertTurns(map[], p.thread.turns)
  {
    hide InsertTurns;
    events := [];
    if p.activeTurnId.Some? {
      var found := FindTurn(p.thread.turns, p.activeTurnId.value);
      if found.Some? {
        var turn := found.value;
        events := [TurnStarted(turn)];
        var i := 0;
        while i < |turn.items|
          invariant 0 <= i <= |turn.items|
          invariant events == [TurnStarted(turn)] + NewItemEvents(turn.id, turn.items[..i])
        {
          events := events + [ItemStarted(turn.id, turn.items[i]), ItemCompleted(turn.id, turn.items[i])];
          assert turn.items[..i + 1][..i] == turn.items[..i];
          i := i + 1;
        }
        assert turn.items[..i] == turn.items;
      }
    }
    snaps := RecordTexts(map[], p.thread.turns);
  }
}
