/**
  A consumer of the bridge's events, and what it shows after replaying a diff. The consumer
  takes in an item it does not know when it is started and one it knows when it is completed,
  appends deltas to items it knows and to summary parts it was told of, and follows the
  lifecycle, status and request events. Anything out of turn it ignores.
 */
module Replay {
  import opened Wrappers
  import opened Thread
  import opened Diff

  /** An item is found by the ids of its turn and its own. */
  type ItemKey = (string, string)
  type Items = map<ItemKey, ThreadItem>

  datatype View = View(items: Items, active: Option<string>, status: ThreadStatus, waiting: set<string>)

  // ----- The consumer -----

  /** At least `n` parts, new ones empty. */
  function Padded(parts: seq<Text>, n: nat): (r: seq<Text>)
    ensures |r| == if |parts| < n then n else |parts|
  {
    parts + seq(if |parts| < n then n - |parts| else 0, _ => [])
  }

  function AppendAt(parts: seq<Text>, i: nat, delta: Text): (r: seq<Text>)
    ensures |r| == if |parts| <= i then i + 1 else |parts|
  {
    var padded := Padded(parts, i + 1);
    padded[i := padded[i] + delta]
  }

  lemma AppendAtParts(parts: seq<Text>, i: nat, delta: Text)
    ensures var r := AppendAt(parts, i, delta);
            forall j :: 0 <= j < |r| ==>
              r[j] == if j == i then (if i < |parts| then parts[i] + delta else delta)
                      else if j < |parts| then parts[j] else []
  {
  }

  /** Which item an event is about. */
  function Target(e: Event): Option<ItemKey> {
    match e
    case ItemStarted(t, item) => Some((t, item.id))
    case ItemCompleted(t, item) => Some((t, item.id))
    case AgentMessageDelta(t, id, _) => Some((t, id))
    case PlanDelta(t, id, _) => Some((t, id))
    case ReasoningSummaryPartAdded(t, id, _) => Some((t, id))
    case ReasoningSummaryTextDelta(t, id, _, _) => Some((t, id))
    case ReasoningTextDelta(t, id, _, _) => Some((t, id))
    case CommandExecutionOutputDelta(t, id, _) => Some((t, id))
    case _ => None
  }

  /**
    A known item after an event about it. Starting it again, a delta for another kind of item,
    and a summary part or delta out of turn are ignored.
   */
  function Receive(item: ThreadItem, e: Event): ThreadItem {
    match e
    case ItemCompleted(_, next) => next
    case AgentMessageDelta(_, _, delta) =>
      if item.AgentMessage? then item.(text := item.text + delta) else item
    case PlanDelta(_, _, delta) =>
      if item.Plan? then item.(text := item.text + delta) else item
    case ReasoningSummaryPartAdded(_, _, i) =>
      if item.Reasoning? && i == |item.summary| then item.(summary := item.summary + [[]]) else item
    case ReasoningSummaryTextDelta(_, _, delta, i) =>
      if item.Reasoning? && i < |item.summary| then item.(summary := AppendAt(item.summary, i, delta)) else item
    case ReasoningTextDelta(_, _, delta, i) =>
      if item.Reasoning? then item.(thoughts := AppendAt(item.thoughts, i, delta)) else item
    case CommandExecutionOutputDelta(_, _, delta) =>
      if item.CommandExecution? then item.(output := Some(OutputText(item.output) + delta)) else item
    case _ => item
  }

  function ApplyToItems(items: Items, e: Event): Items {
    match Target(e)
    case None => items
    case Some(key) =>
      if key in items then items[key := Receive(items[key], e)]
      else if e.ItemStarted? then items[key := e.item]
      else items
  }

  function ApplyToActive(active: Option<string>, e: Event): Option<string> {
    match e
    case TurnStarted(turn) => Some(turn.id)
    case TurnCompleted(turn) => if active == Some(turn.id) then None else active
    case _ => active
  }

  function ApplyToStatus(status: ThreadStatus, e: Event): ThreadStatus {
    if e.ThreadStatusChanged? then e.status else status
  }

  function ApplyToWaiting(waiting: set<string>, e: Event): set<string> {
    if e.ServerRequestResolved? then waiting - {e.requestId} else waiting
  }

  function Fold<S>(step: (S, Event) -> S, s: S, events: seq<Event>): S {
    if events == [] then s
    else step(Fold(step, s, events[..|events| - 1]), events[|events| - 1])
  }

  function ReplayItems(items: Items, events: seq<Event>): Items {
    Fold(ApplyToItems, items, events)
  }

  function ReplayActive(active: Option<string>, events: seq<Event>): Option<string> {
    Fold(ApplyToActive, active, events)
  }

  function Follow(item: ThreadItem, events: seq<Event>): ThreadItem {
    Fold(Receive, item, events)
  }

  function ReplayView(v: View, events: seq<Event>): View {
    View(ReplayItems(v.items, events), ReplayActive(v.active, events),
         Fold(ApplyToStatus, v.status, events), Fold(ApplyToWaiting, v.waiting, events))
  }

  lemma {:induction false} FoldConcat<S>(step: (S, Event) -> S, s: S, a: seq<Event>, b: seq<Event>)
    ensures Fold(step, s, a + b) == Fold(step, Fold(step, s, a), b)
  {
    if b == [] {
      assert a + b == a;
    } else {
      assert (a + b)[..|a + b| - 1] == a + b[..|b| - 1];
      FoldConcat(step, s, a, b[..|b| - 1]);
    }
  }

  lemma {:induction false} FoldIdle<S>(step: (S, Event) -> S, s: S, events: seq<Event>)
    requires forall e :: e in events ==> step(s, e) == s
    ensures Fold(step, s, events) == s
  {
    if events != [] {
      FoldIdle(step, s, events[..|events| - 1]);
    }
  }

  lemma FoldShort<S>(step: (S, Event) -> S, s: S, events: seq<Event>)
    requires |events| <= 2
    ensures Fold(step, s, events) ==
            match |events|
            case 0 => s
            case 1 => step(s, events[0])
            case _ => step(step(s, events[0]), events[1])
  {
    if events != [] {
      var front := events[..|events| - 1];
      if |events| == 2 {
        assert front[..0] == [];
        assert Fold(step, s, front) == step(Fold(step, s, front[..0]), front[0]);
      }
    }
  }

  // ----- What is promised -----

  /** Same text, and for commands the same status and output; in full for items without text. */
  predicate SameText(a: ThreadItem, b: ThreadItem) {
    a.id == b.id &&
    match (a, b)
    case (AgentMessage(_, s, _), AgentMessage(_, t, _)) => s == t
    case (Plan(_, s), Plan(_, t)) => s == t
    case (Reasoning(_, s, c), Reasoning(_, t, d)) => s == t && c == d
    case (CommandExecution(_, s, o, _), CommandExecution(_, t, p, _)) => s == t && o == p
    case _ => a == b
  }

  /** How much of an item is asked to be shown: its text, or every field. */
  datatype Extent = OfText | Whole

  predicate Same(x: Extent, a: ThreadItem, b: ThreadItem) {
    if x.Whole? then a == b else SameText(a, b)
  }

  ghost predicate Shows(x: Extent, items: Items, turnId: string, item: ThreadItem) {
    (turnId, item.id) in items && Same(x, items[(turnId, item.id)], item)
  }

  /** Every item of every turn is shown. */
  ghost predicate ShowsAll(x: Extent, items: Items, turns: seq<Turn>) {
    forall t, i :: t in turns && i in t.items ==> Shows(x, items, t.id, i)
  }

  ghost predicate DistinctIn(items: seq<ThreadItem>) {
    forall i, j :: 0 <= i < j < |items| ==> items[i].id != items[j].id
  }

  ghost predicate DistinctTurnIds(turns: seq<Turn>) {
    forall a, b :: 0 <= a < b < |turns| ==> turns[a].id != turns[b].id
  }

  /** No two items of the thread, in one turn or two, share an id. */
  ghost predicate DistinctItemIds(turns: seq<Turn>) {
    forall a, b, i, j |
      0 <= a < |turns| && 0 <= b < |turns| && 0 <= i < |turns[a].items| && 0 <= j < |turns[b].items| ::
      turns[a].items[i].id == turns[b].items[j].id ==> a == b && i == j
  }

  ghost predicate Distinct(p: Projection) {
    DistinctTurnIds(p.thread.turns) && DistinctItemIds(p.thread.turns)
  }

  /** Wherever a length is recorded for a part, it is that of the part. */
  ghost predicate LensAgree(lens: Option<seq<nat>>, parts: seq<Text>) {
    forall i :: 0 <= i < |parts| ==> LengthAt(lens, i, |parts[i]|) == |parts[i]|
  }

  /** The text snapshot is absent, or has the lengths that the diff of such an item reads. */
  ghost predicate Agrees(snap: Option<ItemTextSnapshot>, item: ThreadItem) {
    snap.Some? ==>
      match item
      case AgentMessage(_, text, _) => snap.value.agentTextLen == |text|
      case Plan(_, text) => snap.value.planTextLen == |text|
      case Reasoning(_, summary, thoughts) =>
        LensAgree(SummaryLens(snap), summary) && LensAgree(ThoughtLens(snap), thoughts)
      case CommandExecution(_, _, output, _) => snap.value.outputLen == |OutputText(output)|
      case _ => true
  }

  lemma SnapshotAgrees(item: ThreadItem)
    ensures Agrees(Some(SnapshotItem(item)), item)
  {
  }

  /** Each item's text snapshot is absent or fits the item as it is. */
  ghost predicate SnapshotsAgree(snaps: Snapshots, turns: seq<Turn>) {
    forall t, i :: t in turns && i in t.items ==> Agrees(Lookup(snaps, i.id), i)
  }

  // ----- One item -----

  /** Every old part is a prefix of the part in its place. */
  ghost predicate AppendOnly(prev: seq<Text>, next: seq<Text>) {
    |prev| <= |next| && forall i :: 0 <= i < |prev| ==> prev[i] <= next[i]
  }

  ghost predicate PartGrows(prev: seq<Text>, next: seq<Text>) {
    exists i :: 0 <= i < |prev| && i < |next| && prev[i] < next[i]
  }

  ghost predicate NewThought(prev: seq<Text>, next: seq<Text>) {
    exists i :: |prev| <= i < |next| && next[i] != []
  }

  /** Does some part of a reasoning item grow, or a new one appear that is reported? */
  ghost predicate GrowsSomewhere(prev: ThreadItem, next: ThreadItem)
    requires prev.Reasoning? && next.Reasoning?
  {
    || |prev.summary| < |next.summary| || PartGrows(prev.summary, next.summary)
    || PartGrows(prev.thoughts, next.thoughts) || NewThought(prev.thoughts, next.thoughts)
  }

  /**
    Reasoning is reported by its growth alone as soon as any part grows: then it must be
    append-only, and not end in a new thought that is still empty.
   */
  ghost predicate Reportable(prev: ThreadItem, next: ThreadItem) {
    prev.Reasoning? && next.Reasoning? && GrowsSomewhere(prev, next) ==>
      && AppendOnly(prev.summary, next.summary)
      && AppendOnly(prev.thoughts, next.thoughts)
      && (|prev.thoughts| < |next.thoughts| ==> next.thoughts[|next.thoughts| - 1] != [])
  }

  lemma GrowthOfPrefix(prev: Text, next: Text)
    ensures Growth(prev, next, |prev|) == if prev < next then Some(next[|prev|..]) else None
    ensures prev < next ==> prev + next[|prev|..] == next
  {
    assert prev[..|prev|] == prev;
  }

  /** What is appended to part `i` when `next`'s parts are reported over `prev`'s. */
  function PartGrowth(prev: seq<Text>, next: seq<Text>, lens: Option<seq<nat>>, i: nat): Option<Text>
    requires i < |prev| && i < |next|
  {
    Growth(prev[i], next[i], LengthAt(lens, i, |prev[i]|))
  }

  function Grown(prev: seq<Text>, next: seq<Text>, lens: Option<seq<nat>>, i: nat): Text
    requires i < |prev| && i < |next|
  {
    var delta := PartGrowth(prev, next, lens, i);
    if delta.Some? then prev[i] + delta.value else prev[i]
  }

  /** The parts shown once the first `n` have been reported. */
  ghost predicate PartsShown(prev: seq<Text>, next: seq<Text>, lens: Option<seq<nat>>, n: nat, r: seq<Text>) {
    && n <= |next| && |prev| <= |r|
    && forall j :: 0 <= j < |r| ==>
         r[j] == if j < n && j < |next| then (if j < |prev| then Grown(prev, next, lens, j) else next[j])
                 else if j < |prev| then prev[j] else []
  }

  lemma NothingShownYet(prev: seq<Text>, next: seq<Text>, lens: Option<seq<nat>>)
    ensures PartsShown(prev, next, lens, 0, prev)
  {
  }

  /** Does one of the first `n` parts grow? */
  ghost predicate GrowsBelow(prev: seq<Text>, next: seq<Text>, lens: Option<seq<nat>>, n: nat)
    requires n <= |next|
  {
    exists i :: 0 <= i < |prev| && i < n && PartGrowth(prev, next, lens, i).Some?
  }

  /** Following the deltas of the first `n` summary parts, whatever the recorded lengths. */
  lemma {:induction false} FollowSummary(
      turnId: string, item: ThreadItem, prev: seq<Text>, next: seq<Text>, lens: Option<seq<nat>>, n: nat)
    requires item.Reasoning? && item.summary == prev && n <= |next|
    ensures var r := Follow(item, SummaryEvents(turnId, item.id, prev, next, lens, n));
            && r.Reasoning? && r == item.(summary := r.summary)
            && PartsShown(prev, next, lens, n, r.summary)
            && |r.summary| == if n < |prev| then |prev| else n
    ensures SummaryEvents(turnId, item.id, prev, next, lens, n) != []
       <==> n > |prev| || GrowsBelow(prev, next, lens, n)
  {
    hide SummaryPartEvents, PartsShown, Receive, PartGrowth;
    if n == 0 {
      NothingShownYet(prev, next, lens);
    } else {
      FollowSummary(turnId, item, prev, next, lens, n - 1);
      var events := SummaryEvents(turnId, item.id, prev, next, lens, n - 1);
      var last := SummaryPartEvents(turnId, item.id, prev, next, lens, n - 1);
      FoldConcat(Receive, item, events, last);
      var mid := Follow(item, events);
      FollowSummaryPart(turnId, mid, item.id, prev, next, lens, n - 1);
    }
  }

  lemma FollowSummaryPart(
      turnId: string, item: ThreadItem, id: string, prev: seq<Text>, next: seq<Text>, lens: Option<seq<nat>>,
      i: nat)
    requires item.Reasoning? && i < |next|
    requires PartsShown(prev, next, lens, i, item.summary) && |item.summary| == if i < |prev| then |prev| else i
    ensures var r := Follow(item, SummaryPartEvents(turnId, id, prev, next, lens, i));
            && r.Reasoning? && r == item.(summary := r.summary)
            && PartsShown(prev, next, lens, i + 1, r.summary)
            && |r.summary| == if i + 1 < |prev| then |prev| else i + 1
    ensures SummaryPartEvents(turnId, id, prev, next, lens, i) != []
       <==> i >= |prev| || PartGrowth(prev, next, lens, i).Some?
  {
    hide Growth, PartsShown, Fold, AppendAt;
    var events := SummaryPartEvents(turnId, id, prev, next, lens, i);
    FoldShort(Receive, item, events);
    if i < |prev| {
      PartReported(prev, next, lens, i, item.summary);
    } else {
      SummaryAdded(prev, next, lens, i, item.summary);
    }
  }

  lemma PartReported(prev: seq<Text>, next: seq<Text>, lens: Option<seq<nat>>, i: nat, r: seq<Text>)
    requires i < |next| && i < |prev| && PartsShown(prev, next, lens, i, r)
    ensures match PartGrowth(prev, next, lens, i)
            case Some(delta) =>
              PartsShown(prev, next, lens, i + 1, AppendAt(r, i, delta)) && |AppendAt(r, i, delta)| == |r|
            case None => PartsShown(prev, next, lens, i + 1, r)
  {
    hide PartGrowth;
    assert r[i] == prev[i];
    var delta := PartGrowth(prev, next, lens, i);
    if delta.Some? {
      AppendAtParts(r, i, delta.value);
    }
  }

  lemma SummaryAdded(prev: seq<Text>, next: seq<Text>, lens: Option<seq<nat>>, i: nat, r: seq<Text>)
    requires |prev| <= i < |next| && |r| == i && PartsShown(prev, next, lens, i, r)
    ensures if next[i] == [] then PartsShown(prev, next, lens, i + 1, r + [[]])
            else PartsShown(prev, next, lens, i + 1, AppendAt(r + [[]], i, next[i]))
                 && |AppendAt(r + [[]], i, next[i])| == i + 1
  {
    hide PartGrowth;
    AppendAtParts(r + [[]], i, next[i]);
  }

  lemma FollowOne(item: ThreadItem, events: seq<Event>)
    requires |events| <= 1
    ensures Follow(item, events) == if events == [] then item else Receive(item, events[0])
  {
    hide Receive;
    FoldShort(Receive, item, events);
  }

  /** Thoughts are not padded for new empty parts, so a trailing run of those is missing. */
  ghost predicate ThoughtsShown(prev: seq<Text>, next: seq<Text>, lens: Option<seq<nat>>, n: nat, r: seq<Text>) {
    && PartsShown(prev, next, lens, n, r)
    && |r| <= (if n < |prev| then |prev| else n)
    && (forall j :: |r| <= j < n ==> next[j] == [])
    && (|prev| < |r| ==> next[|r| - 1] != [])
  }

  lemma {:induction false} FollowThoughts(
      turnId: string, item: ThreadItem, prev: seq<Text>, next: seq<Text>, lens: Option<seq<nat>>, n: nat)
    requires item.Reasoning? && item.thoughts == prev && n <= |next|
    ensures var r := Follow(item, ThoughtEvents(turnId, item.id, prev, next, lens, n));
            && r.Reasoning? && r == item.(thoughts := r.thoughts)
            && ThoughtsShown(prev, next, lens, n, r.thoughts)
    ensures ThoughtEvents(turnId, item.id, prev, next, lens, n) != []
       <==> GrowsBelow(prev, next, lens, n) || NewThought(prev, next[..n])
  {
    hide ThoughtPartEvents, PartsShown, Receive, NewThought, PartGrowth;
    if n == 0 {
      NothingShownYet(prev, next, lens);
      NoThoughtYet(prev, next);
    } else {
      NewThoughtStep(prev, next, n);
      FollowThoughts(turnId, item, prev, next, lens, n - 1);
      var events := ThoughtEvents(turnId, item.id, prev, next, lens, n - 1);
      var last := ThoughtPartEvents(turnId, item.id, prev, next, lens, n - 1);
      FoldConcat(Receive, item, events, last);
      var mid := Follow(item, events);
      FollowThoughtPart(turnId, mid, item.id, prev, next, lens, n - 1);
    }
  }

  lemma NewThoughtStep(prev: seq<Text>, next: seq<Text>, n: nat)
    requires 0 < n <= |next|
    ensures NewThought(prev, next[..n])
       <==> NewThought(prev, next[..n - 1]) || (|prev| <= n - 1 && next[n - 1] != [])
  {
    assert forall i :: 0 <= i < n - 1 ==> next[..n][i] == next[..n - 1][i];
    assert next[..n][n - 1] == next[n - 1];
  }

  lemma NoThoughtYet(prev: seq<Text>, next: seq<Text>)
    ensures !NewThought(prev, next[..0])
  {
  }

  lemma FollowThoughtPart(
      turnId: string, item: ThreadItem, id: string, prev: seq<Text>, next: seq<Text>, lens: Option<seq<nat>>,
      i: nat)
    requires item.Reasoning? && i < |next| && ThoughtsShown(prev, next, lens, i, item.thoughts)
    ensures var r := Follow(item, ThoughtPartEvents(turnId, id, prev, next, lens, i));
            && r.Reasoning? && r == item.(thoughts := r.thoughts)
            && ThoughtsShown(prev, next, lens, i + 1, r.thoughts)
    ensures ThoughtPartEvents(turnId, id, prev, next, lens, i) != []
       <==> if i < |prev| then PartGrowth(prev, next, lens, i).Some? else next[i] != []
  {
    hide Growth, ThoughtsShown, Fold, AppendAt;
    var events := ThoughtPartEvents(turnId, id, prev, next, lens, i);
    FollowOne(item, events);
    if i < |prev| {
      ThoughtReported(prev, next, lens, i, item.thoughts);
    } else {
      ThoughtAdded(prev, next, lens, i, item.thoughts);
    }
  }

  lemma ThoughtReported(prev: seq<Text>, next: seq<Text>, lens: Option<seq<nat>>, i: nat, r: seq<Text>)
    requires i < |next| && i < |prev| && ThoughtsShown(prev, next, lens, i, r)
    ensures match PartGrowth(prev, next, lens, i)
            case Some(delta) => ThoughtsShown(prev, next, lens, i + 1, AppendAt(r, i, delta))
            case None => ThoughtsShown(prev, next, lens, i + 1, r)
  {
    hide PartGrowth, PartsShown, AppendAt;
    PartReported(prev, next, lens, i, r);
    ShownAtLeast(prev, next, lens, i, r);
  }

  lemma ThoughtAdded(prev: seq<Text>, next: seq<Text>, lens: Option<seq<nat>>, i: nat, r: seq<Text>)
    requires |prev| <= i < |next| && ThoughtsShown(prev, next, lens, i, r)
    ensures if next[i] != [] then ThoughtsShown(prev, next, lens, i + 1, AppendAt(r, i, next[i]))
            else ThoughtsShown(prev, next, lens, i + 1, r)
  {
    hide Grown;
    if next[i] != [] {
      var r' := AppendAt(r, i, next[i]);
      AppendAtParts(r, i, next[i]);
      forall j | 0 <= j < |r'|
        ensures r'[j] == if j < |prev| then Grown(prev, next, lens, j) else next[j]
      {
        assert |r| <= j < i ==> next[j] == [];
      }
    }
  }

  lemma ShownAtLeast(prev: seq<Text>, next: seq<Text>, lens: Option<seq<nat>>, n: nat, r: seq<Text>)
    requires PartsShown(prev, next, lens, n, r)
    ensures |prev| <= |r|
  {
  }

  /** With the right lengths a part grows exactly when it is extended, and then shows the new one. */
  lemma GrownAgreeing(prev: seq<Text>, next: seq<Text>, lens: Option<seq<nat>>, i: nat)
    requires LensAgree(lens, prev) && i < |prev| && i < |next|
    ensures PartGrowth(prev, next, lens, i).Some? <==> prev[i] < next[i]
    ensures Grown(prev, next, lens, i) == if prev[i] <= next[i] then next[i] else prev[i]
  {
    GrowthOfPrefix(prev[i], next[i]);
  }

  lemma GrowsBelowAgreeing(prev: seq<Text>, next: seq<Text>, lens: Option<seq<nat>>)
    requires LensAgree(lens, prev)
    ensures GrowsBelow(prev, next, lens, |next|) <==> PartGrows(prev, next)
  {
    hide LensAgree, PartGrowth;
    forall i | 0 <= i < |prev| && i < |next| ensures PartGrowth(prev, next, lens, i).Some? <==> prev[i] < next[i] {
      GrownAgreeing(prev, next, lens, i);
    }
  }

  /** Reported parts show the new ones exactly when growth was all that happened. */
  lemma PartsShownExact(prev: seq<Text>, next: seq<Text>, lens: Option<seq<nat>>, r: seq<Text>)
    requires PartsShown(prev, next, lens, |next|, r) && LensAgree(lens, prev)
    ensures r == next <==> AppendOnly(prev, next) && |r| == |next|
  {
    hide LensAgree, Grown;
    forall i | 0 <= i < |prev| && i < |next|
      ensures Grown(prev, next, lens, i) == if prev[i] <= next[i] then next[i] else prev[i]
    {
      GrownAgreeing(prev, next, lens, i);
    }
    if r == next {
      forall i | 0 <= i < |prev| ensures prev[i] <= next[i] {
        assert r[i] == Grown(prev, next, lens, i);
      }
    }
  }

  lemma ThoughtsShownExact(prev: seq<Text>, next: seq<Text>, lens: Option<seq<nat>>, r: seq<Text>)
    requires ThoughtsShown(prev, next, lens, |next|, r) && LensAgree(lens, prev)
    ensures r == next
       <==> AppendOnly(prev, next) && (|prev| < |next| ==> next[|next| - 1] != [])
  {
    hide PartsShown, LensAgree;
    PartsShownExact(prev, next, lens, r);
    ShownAtLeast(prev, next, lens, |next|, r);
  }

  /** Following the deltas of a reasoning item, whatever its text snapshot. */
  lemma FollowReasoning(
      turnId: string, prev: ThreadItem, next: ThreadItem, snap: Option<ItemTextSnapshot>)
    requires prev.Reasoning? && next.Reasoning? && prev.id == next.id
    ensures var r := Follow(prev, ReasoningEvents(turnId, prev, next, snap));
            && r.Reasoning? && r.id == prev.id
            && PartsShown(prev.summary, next.summary, SummaryLens(snap), |next.summary|, r.summary)
            && |r.summary| == (if |next.summary| < |prev.summary| then |prev.summary| else |next.summary|)
            && ThoughtsShown(prev.thoughts, next.thoughts, ThoughtLens(snap), |next.thoughts|, r.thoughts)
    ensures ReasoningEvents(turnId, prev, next, snap) != []
       <==> || |next.summary| > |prev.summary|
            || GrowsBelow(prev.summary, next.summary, SummaryLens(snap), |next.summary|)
            || GrowsBelow(prev.thoughts, next.thoughts, ThoughtLens(snap), |next.thoughts|)
            || NewThought(prev.thoughts, next.thoughts)
  {
    hide SummaryEvents, ThoughtEvents, PartsShown, ThoughtsShown, Fold, GrowsBelow, NewThought, SummaryLens,
      ThoughtLens;
    var a := SummaryEvents(turnId, next.id, prev.summary, next.summary, SummaryLens(snap), |next.summary|);
    var b := ThoughtEvents(turnId, next.id, prev.thoughts, next.thoughts, ThoughtLens(snap), |next.thoughts|);
    FoldConcat(Receive, prev, a, b);
    FollowSummary(turnId, prev, prev.summary, next.summary, SummaryLens(snap), |next.summary|);
    FollowThoughts(turnId, Follow(prev, a), prev.thoughts, next.thoughts, ThoughtLens(snap), |next.thoughts|);
    assert next.thoughts[..|next.thoughts|] == next.thoughts;
  }

  lemma ReasoningReplay(
      turnId: string, prev: ThreadItem, next: ThreadItem, snap: Option<ItemTextSnapshot>)
    requires prev.Reasoning? && next.Reasoning? && prev.id == next.id && Agrees(snap, prev)
    ensures ReasoningEvents(turnId, prev, next, snap) != [] <==> GrowsSomewhere(prev, next)
    ensures GrowsSomewhere(prev, next) ==>
              (Follow(prev, ReasoningEvents(turnId, prev, next, snap)) == next <==> Reportable(prev, next))
  {
    hide ReasoningEvents, PartsShown, ThoughtsShown, Fold, PartGrows, NewThought, GrowsBelow, LensAgree, AppendOnly;
    FollowReasoning(turnId, prev, next, snap);
    var last := Follow(prev, ReasoningEvents(turnId, prev, next, snap));
    ReasoningAgrees(snap, prev);
    GrowsBelowAgreeing(prev.summary, next.summary, SummaryLens(snap));
    GrowsBelowAgreeing(prev.thoughts, next.thoughts, ThoughtLens(snap));
    PartsShownExact(prev.summary, next.summary, SummaryLens(snap), last.summary);
    ThoughtsShownExact(prev.thoughts, next.thoughts, ThoughtLens(snap), last.thoughts);
    AppendOnlyLonger(prev.summary, next.summary);
  }

  lemma AppendOnlyLonger(prev: seq<Text>, next: seq<Text>)
    ensures AppendOnly(prev, next) ==> |prev| <= |next|
  {
  }

  lemma ReasoningAgrees(snap: Option<ItemTextSnapshot>, item: ThreadItem)
    requires item.Reasoning? && Agrees(snap, item)
    ensures LensAgree(SummaryLens(snap), item.summary) && LensAgree(ThoughtLens(snap), item.thoughts)
  {
  }

  /** The fields that no event of a growing message or command carries stand still while it grows. */
  predicate RestReported(prev: ThreadItem, next: ThreadItem) {
    match (prev, next)
    case (AgentMessage(_, a, r), AgentMessage(_, b, s)) => a < b ==> r == s
    case (CommandExecution(_, t, o, r), CommandExecution(_, u, p, s)) =>
      t == u && (OutputText(o) < OutputText(p) || o == p) ==> r == s
    case _ => true
  }

  /** Will the events of an item's diff say everything that is asked for? */
  ghost predicate ReportableAs(x: Extent, prev: ThreadItem, next: ThreadItem) {
    Reportable(prev, next) && (x.Whole? ==> RestReported(prev, next))
  }

  /**
    One item: a consumer that showed the old item shows the new one after the events of
    `diff_item`, given a text snapshot that is absent or agrees, exactly when the change is reportable.
   */
  lemma ItemReplay(
      x: Extent, turnId: string, prev: ThreadItem, next: ThreadItem, snap: Option<ItemTextSnapshot>, shown: ThreadItem)
    requires prev.id == next.id && Same(x, shown, prev) && Agrees(snap, prev)
    ensures Same(x, Follow(shown, ItemDiff(turnId, prev, next, snap)), next) <==> ReportableAs(x, prev, next)
  {
    hide GrowsSomewhere, Growth, Fold, AppendOnly, ReasoningEvents, LensAgree;
    var events := ItemDiff(turnId, prev, next, snap);
    if prev.Reasoning? && next.Reasoning? {
      assert shown == prev;
      ReasoningReplay(turnId, prev, next, snap);
      if !GrowsSomewhere(prev, next) {
        FollowOne(shown, events);
      } else {
        FollowedReasoning(turnId, prev, next, snap);
      }
    } else {
      if prev.AgentMessage? && next.AgentMessage? {
        GrowthOfPrefix(prev.text, next.text);
      } else if prev.Plan? && next.Plan? {
        GrowthOfPrefix(prev.text, next.text);
      } else if prev.CommandExecution? && next.CommandExecution? {
        GrowthOfPrefix(OutputText(prev.output), OutputText(next.output));
      }
      FollowOne(shown, events);
    }
  }

  lemma FollowedReasoning(turnId: string, prev: ThreadItem, next: ThreadItem, snap: Option<ItemTextSnapshot>)
    requires prev.Reasoning? && next.Reasoning? && prev.id == next.id
    ensures Follow(prev, ReasoningEvents(turnId, prev, next, snap)).Reasoning?
    ensures Follow(prev, ReasoningEvents(turnId, prev, next, snap)).id == next.id
  {
    hide ReasoningEvents, Fold, PartsShown, ThoughtsShown;
    FollowReasoning(turnId, prev, next, snap);
  }

  // ----- One turn -----

  ghost predicate About(key: ItemKey, events: seq<Event>) {
    forall e :: e in events ==> Target(e) == Some(key)
  }

  lemma AboutConcat(key: ItemKey, a: seq<Event>, b: seq<Event>)
    requires About(key, a) && About(key, b)
    ensures About(key, a + b)
  {
    hide Target;
  }

  lemma PartEventsAbout(
      turnId: string, id: string, prev: seq<Text>, next: seq<Text>, lens: Option<seq<nat>>, i: nat)
    requires i < |next|
    ensures About((turnId, id), SummaryPartEvents(turnId, id, prev, next, lens, i))
    ensures About((turnId, id), ThoughtPartEvents(turnId, id, prev, next, lens, i))
  {
    hide Growth, LengthAt;
  }

  lemma {:induction false} PartsEventsAbout(
      turnId: string, id: string, prev: seq<Text>, next: seq<Text>, lens: Option<seq<nat>>, n: nat)
    requires n <= |next|
    ensures About((turnId, id), SummaryEvents(turnId, id, prev, next, lens, n))
    ensures About((turnId, id), ThoughtEvents(turnId, id, prev, next, lens, n))
  {
    hide SummaryPartEvents, ThoughtPartEvents, About;
    if n == 0 {
      AboutNothing((turnId, id));
    } else {
      var key := (turnId, id);
      PartsEventsAbout(turnId, id, prev, next, lens, n - 1);
      PartEventsAbout(turnId, id, prev, next, lens, n - 1);
      AboutConcat(key, SummaryEvents(turnId, id, prev, next, lens, n - 1),
                  SummaryPartEvents(turnId, id, prev, next, lens, n - 1));
      AboutConcat(key, ThoughtEvents(turnId, id, prev, next, lens, n - 1),
                  ThoughtPartEvents(turnId, id, prev, next, lens, n - 1));
    }
  }

  lemma AboutNothing(key: ItemKey)
    ensures About(key, [])
  {
  }

  lemma ReasoningEventsAbout(turnId: string, prev: ThreadItem, next: ThreadItem, snap: Option<ItemTextSnapshot>)
    requires prev.Reasoning? && next.Reasoning?
    ensures About((turnId, next.id), ReasoningEvents(turnId, prev, next, snap))
  {
    hide SummaryEvents, ThoughtEvents, About;
    var id, n, m := next.id, |next.summary|, |next.thoughts|;
    PartsEventsAbout(turnId, id, prev.summary, next.summary, SummaryLens(snap), n);
    PartsEventsAbout(turnId, id, prev.thoughts, next.thoughts, ThoughtLens(snap), m);
    AboutConcat((turnId, id), SummaryEvents(turnId, id, prev.summary, next.summary, SummaryLens(snap), n),
                ThoughtEvents(turnId, id, prev.thoughts, next.thoughts, ThoughtLens(snap), m));
  }

  lemma ItemDiffAbout(turnId: string, prev: ThreadItem, next: ThreadItem, snap: Option<ItemTextSnapshot>)
    ensures About((turnId, next.id), ItemDiff(turnId, prev, next, snap))
  {
    hide Growth, ReasoningEvents;
    if prev.Reasoning? && next.Reasoning? {
      ReasoningEventsAbout(turnId, prev, next, snap);
    }
  }

  lemma OneItemEventsAbout(
      turnId: string, active: bool, prev: map<string, ThreadItem>, item: ThreadItem, snaps: Snapshots)
    ensures About((turnId, item.id), OneItemEvents(turnId, active, prev, item, snaps))
  {
    hide ItemDiff;
    if item.id in prev {
      ItemDiffAbout(turnId, prev[item.id], item, Lookup(snaps, item.id));
    }
  }

  /** Events about one item change that item, by following them, and no other. */
  lemma {:induction false} ReplayAbout(items: Items, key: ItemKey, events: seq<Event>)
    requires key in items && About(key, events)
    ensures ReplayItems(items, events) == items[key := Follow(items[key], events)]
  {
    if events != [] {
      ReplayAbout(items, key, events[..|events| - 1]);
    }
  }

  /** Will the change of an item, if any, be reported? */
  ghost predicate PairReportable(x: Extent, active: bool, prev: map<string, ThreadItem>, item: ThreadItem) {
    active && item.id in prev ==> ReportableAs(x, prev[item.id], item)
  }

  /** The items a turn had are shown, and their snapshots agree. */
  ghost predicate Known(
      x: Extent, items: Items, turnId: string, prev: map<string, ThreadItem>, id: string, snaps: Snapshots) {
    id in prev ==> prev[id].id == id && Shows(x, items, turnId, prev[id]) && Agrees(Lookup(snaps, id), prev[id])
  }

  ghost predicate SameAt(a: Items, b: Items, key: ItemKey) {
    (key in a <==> key in b) && (key in a ==> a[key] == b[key])
  }

  lemma OneItemReplay(
      x: Extent, items: Items, turnId: string, active: bool, prev: map<string, ThreadItem>, item: ThreadItem,
      snaps: Snapshots)
    requires Known(x, items, turnId, prev, item.id, snaps)
    ensures var after := ReplayItems(items, OneItemEvents(turnId, active, prev, item, snaps));
            && (Shows(x, after, turnId, item) <==> PairReportable(x, active, prev, item))
            && forall key :: key != (turnId, item.id) ==> SameAt(after, items, key)
  {
    hide ItemDiff, ReportableAs, Fold;
    var key := (turnId, item.id);
    var events := OneItemEvents(turnId, active, prev, item, snaps);
    if item.id !in prev {
      InstallNew(items, turnId, item);
    } else {
      OneItemEventsAbout(turnId, active, prev, item, snaps);
      ReplayAbout(items, key, events);
      if prev[item.id] == item {
        FollowOne(items[key], events);
        UnchangedReportable(x, item);
      } else if active {
        ItemReplay(x, turnId, prev[item.id], item, Lookup(snaps, item.id), items[key]);
      } else {
        FollowOne(items[key], events);
      }
    }
  }

  lemma UnchangedReportable(x: Extent, item: ThreadItem)
    ensures ReportableAs(x, item, item)
  {
  }

  lemma InstallNew(items: Items, turnId: string, item: ThreadItem)
    ensures ReplayItems(items, [ItemStarted(turnId, item), ItemCompleted(turnId, item)])
         == items[(turnId, item.id) := item]
  {
    FoldShort(ApplyToItems, items, [ItemStarted(turnId, item), ItemCompleted(turnId, item)]);
  }

  /** Whose items are in the list, by turn and id. */
  ghost predicate IsKeyOf(key: ItemKey, turnId: string, items: seq<ThreadItem>) {
    key.0 == turnId && exists i :: i in items && i.id == key.1
  }

  lemma {:induction false} TurnReplay(
      x: Extent, view: Items, turnId: string, active: bool, prev: map<string, ThreadItem>, items: seq<ThreadItem>,
      snaps: Snapshots)
    requires DistinctIn(items) && forall i :: i in items ==> Known(x, view, turnId, prev, i.id, snaps)
    ensures var after := ReplayItems(view, ItemEvents(turnId, active, prev, items, snaps));
            && (forall i :: i in items ==> (Shows(x, after, turnId, i) <==> PairReportable(x, active, prev, i)))
            && forall key :: !IsKeyOf(key, turnId, items) ==> SameAt(after, view, key)
  {
    hide OneItemEvents, PairReportable, Agrees, SameText;
    if items != [] {
      var front, last := items[..|items| - 1], items[|items| - 1];
      assert forall i :: i in items <==> i in front || i == last;
      assert DistinctIn(front);
      TurnReplay(x, view, turnId, active, prev, front, snaps);
      var events := ItemEvents(turnId, active, prev, front, snaps);
      FoldConcat(ApplyToItems, view, events, OneItemEvents(turnId, active, prev, last, snaps));
      var mid := ReplayItems(view, events);
      assert !IsKeyOf((turnId, last.id), turnId, front);
      assert SameAt(mid, view, (turnId, last.id));
      OneItemReplay(x, mid, turnId, active, prev, last, snaps);
      var after := ReplayItems(view, ItemEvents(turnId, active, prev, items, snaps));
      forall i | i in front ensures Shows(x, after, turnId, i) <==> PairReportable(x, active, prev, i) {
        assert i.id != last.id;
        assert SameAt(after, mid, (turnId, i.id));
      }
      forall key | !IsKeyOf(key, turnId, items) ensures SameAt(after, view, key) {
        assert last in items;
        assert key != (turnId, last.id) && !IsKeyOf(key, turnId, front);
        assert SameAt(after, mid, key) && SameAt(mid, view, key);
      }
    }
  }

  // ----- The thread -----

  ghost predicate ChangeReportable(x: Extent, prev: seq<Turn>, activeTurnId: Option<string>, t: Turn, i: ThreadItem) {
    PairReportable(x, activeTurnId == Some(t.id), PrevItems(prev, t.id), i)
  }

  /** Every change to an item of the active turn is reportable. */
  ghost predicate AllReportable(x: Extent, prev: seq<Turn>, activeTurnId: Option<string>, next: seq<Turn>) {
    forall t, i :: t in next && i in t.items ==> ChangeReportable(x, prev, activeTurnId, t, i)
  }

  lemma KnownBefore(x: Extent, view: Items, prev: seq<Turn>, turnId: string, id: string, snaps: Snapshots)
    requires ShowsAll(x, view, prev) && SnapshotsAgree(snaps, prev)
    ensures Known(x, view, turnId, PrevItems(prev, turnId), id, snaps)
  {
    hide SameText, Agrees;
    var items := PrevItems(prev, turnId);
    if id in items {
      var t := TurnsById(prev)[turnId];
      assert t in prev && items[id] in t.items;
    }
  }

  lemma KnownFramed(x: Extent, a: Items, b: Items, prev: seq<Turn>, turnId: string, id: string, snaps: Snapshots)
    requires Known(x, a, turnId, PrevItems(prev, turnId), id, snaps) && SameAt(b, a, (turnId, id))
    ensures Known(x, b, turnId, PrevItems(prev, turnId), id, snaps)
  {
  }

  lemma ShowsFramed(x: Extent, a: Items, b: Items, turnId: string, item: ThreadItem)
    requires SameAt(a, b, (turnId, item.id))
    ensures Shows(x, a, turnId, item) <==> Shows(x, b, turnId, item)
  {
  }

  lemma NothingReplayed(view: Items)
    ensures ReplayItems(view, []) == view
    ensures forall key :: SameAt(view, view, key)
  {
  }

  lemma SameAtChain(a: Items, b: Items, c: Items, key: ItemKey)
    requires SameAt(a, b, key) && SameAt(b, c, key)
    ensures SameAt(a, c, key)
  {
  }

  /** The events of one more turn show its items exactly when they are reportable, and touch no other turn. */
  lemma {:induction false} OneTurnReplay(
      x: Extent, view: Items, mid: Items, prev: seq<Turn>, activeTurnId: Option<string>, turn: Turn, snaps: Snapshots)
    requires DistinctIn(turn.items) && ShowsAll(x, view, prev) && SnapshotsAgree(snaps, prev)
    requires forall id :: SameAt(mid, view, (turn.id, id))
    ensures var after := ReplayItems(mid, TurnEvents(prev, activeTurnId, turn, snaps));
            && (forall i :: i in turn.items ==>
                  (Shows(x, after, turn.id, i) <==> ChangeReportable(x, prev, activeTurnId, turn, i)))
            && forall key: ItemKey :: key.0 != turn.id ==> SameAt(after, mid, key)
  {
    hide PairReportable, ItemEvents, PrevItems, Same, Known, SnapshotsAgree, ShowsAll, Shows, SameAt, Fold, DistinctIn;
    forall i | i in turn.items ensures Known(x, mid, turn.id, PrevItems(prev, turn.id), i.id, snaps) {
      KnownBefore(x, view, prev, turn.id, i.id, snaps);
      assert SameAt(mid, view, (turn.id, i.id));
      KnownFramed(x, view, mid, prev, turn.id, i.id, snaps);
    }
    TurnReplay(x, mid, turn.id, activeTurnId == Some(turn.id), PrevItems(prev, turn.id), turn.items, snaps);
    var after := ReplayItems(mid, TurnEvents(prev, activeTurnId, turn, snaps));
    forall key: ItemKey | key.0 != turn.id ensures SameAt(after, mid, key) {
      assert !IsKeyOf(key, turn.id, turn.items);
    }
  }

  lemma {:induction false} TurnsReplay(
      x: Extent, view: Items, prev: seq<Turn>, activeTurnId: Option<string>, next: seq<Turn>, snaps: Snapshots)
    requires DistinctTurnIds(next) && forall t :: t in next ==> DistinctIn(t.items)
    requires ShowsAll(x, view, prev) && SnapshotsAgree(snaps, prev)
    ensures var after := ReplayItems(view, TurnItemEvents(prev, activeTurnId, next, snaps));
            && (forall t, i :: t in next && i in t.items ==>
                  (Shows(x, after, t.id, i) <==> ChangeReportable(x, prev, activeTurnId, t, i)))
            && forall key: ItemKey :: (forall t :: t in next ==> t.id != key.0) ==> SameAt(after, view, key)
  {
    hide ChangeReportable, TurnEvents, SnapshotsAgree, ShowsAll, DistinctIn, Shows, SameAt, Fold;
    if next == [] {
      NothingReplayed(view);
    } else {
      var front, last := next[..|next| - 1], next[|next| - 1];
      assert forall t :: t in next <==> t in front || t == last;
      assert DistinctTurnIds(front) && forall t :: t in front ==> t.id != last.id;
      TurnsReplay(x, view, prev, activeTurnId, front, snaps);
      var events := TurnItemEvents(prev, activeTurnId, front, snaps);
      FoldConcat(ApplyToItems, view, events, TurnEvents(prev, activeTurnId, last, snaps));
      var mid := ReplayItems(view, events);
      forall id ensures SameAt(mid, view, (last.id, id)) {
        var key: ItemKey := (last.id, id);
        assert forall t :: t in front ==> t.id != key.0;
      }
      OneTurnReplay(x, view, mid, prev, activeTurnId, last, snaps);
      var after := ReplayItems(view, TurnItemEvents(prev, activeTurnId, next, snaps));
      forall t, i | t in front && i in t.items
        ensures Shows(x, after, t.id, i) <==> ChangeReportable(x, prev, activeTurnId, t, i)
      {
        var key: ItemKey := (t.id, i.id);
        assert SameAt(after, mid, key);
        ShowsFramed(x, after, mid, t.id, i);
      }
      forall key: ItemKey | forall t :: t in next ==> t.id != key.0 ensures SameAt(after, view, key) {
        assert last in next && SameAt(after, mid, key) && SameAt(mid, view, key);
        SameAtChain(after, mid, view, key);
      }
    }
  }

  lemma {:induction false} NoTargetIdle(items: Items, events: seq<Event>)
    requires forall e :: e in events ==> Target(e).None?
    ensures ReplayItems(items, events) == items
  {
    FoldIdle(ApplyToItems, items, events);
  }

  lemma {:induction false} ResolvedEventsOnly(requests: seq<PendingRequest>, still: set<string>)
    ensures forall e :: e in ResolvedEvents(requests, still) ==> e.ServerRequestResolved?
  {
    if requests != [] {
      ResolvedEventsOnly(requests[..|requests| - 1], still);
    }
  }

  lemma {:induction false} TurnItemEventsTargeted(
      prev: seq<Turn>, activeTurnId: Option<string>, next: seq<Turn>, snaps: Snapshots)
    ensures forall e :: e in TurnItemEvents(prev, activeTurnId, next, snaps) ==> Target(e).Some?
  {
    hide ItemEvents;
    if next != [] {
      var last := next[|next| - 1];
      TurnItemEventsTargeted(prev, activeTurnId, next[..|next| - 1], snaps);
      ItemEventsTargeted(last.id, activeTurnId == Some(last.id), PrevItems(prev, last.id), last.items, snaps);
    }
  }

  lemma {:induction false} ItemEventsTargeted(
      turnId: string, active: bool, prev: map<string, ThreadItem>, items: seq<ThreadItem>, snaps: Snapshots)
    ensures forall e :: e in ItemEvents(turnId, active, prev, items, snaps) ==> Target(e).Some?
  {
    hide OneItemEvents;
    if items != [] {
      ItemEventsTargeted(turnId, active, prev, items[..|items| - 1], snaps);
      OneItemEventsAbout(turnId, active, prev, items[|items| - 1], snaps);
    }
  }

  /** The four parts of a diff, told apart by what they touch. */
  lemma DiffParts(prev: Projection, next: Projection, snaps: Snapshots)
    returns (lifecycle: seq<Event>, items: seq<Event>, resolved: seq<Event>, status: seq<Event>)
    ensures DiffEvents(prev, next, snaps) == lifecycle + items + resolved + status
    ensures lifecycle == LifecycleEvents(prev, next)
    ensures items == TurnItemEvents(prev.thread.turns, next.activeTurnId, next.thread.turns, snaps)
    ensures resolved == RequestEvents(prev, next)
    ensures status == StatusEvents(prev, next)
    ensures forall e :: e in lifecycle ==> e.TurnStarted? || e.TurnCompleted?
    ensures forall e :: e in items ==> Target(e).Some?
    ensures forall e :: e in resolved ==> e.ServerRequestResolved?
    ensures forall e :: e in status ==> e.ThreadStatusChanged?
  {
    hide TurnItemEvents, ResolvedEvents, WaitingIds, Target;
    lifecycle := LifecycleEvents(prev, next);
    items := TurnItemEvents(prev.thread.turns, next.activeTurnId, next.thread.turns, snaps);
    resolved := RequestEvents(prev, next);
    status := StatusEvents(prev, next);
    TurnItemEventsTargeted(prev.thread.turns, next.activeTurnId, next.thread.turns, snaps);
    ResolvedEventsOnly(prev.pendingApprovals, WaitingIds(next));
    ResolvedEventsOnly(prev.pendingUserInputs, WaitingIds(next));
  }

  lemma {:induction false} FoldFour<S>(
      step: (S, Event) -> S, s: S, a: seq<Event>, b: seq<Event>, c: seq<Event>, d: seq<Event>)
    ensures Fold(step, s, a + b + c + d) == Fold(step, Fold(step, Fold(step, Fold(step, s, a), b), c), d)
  {
    FoldConcat(step, s, a, b);
    FoldConcat(step, s, a + b, c);
    FoldConcat(step, s, a + b + c, d);
  }

  /**
    Diff replay: a consumer that shows every item of `prev`, by its text or whole, shows every
    item of `next` as much after the events of the diff, exactly when every change is reportable.
    Ids are distinct in `next`, and text snapshots are absent or agree with `prev`.
   */
  lemma {:induction false} DiffReplay(
      x: Extent, prev: Projection, next: Projection, snaps: Snapshots, items: Items)
    requires Distinct(next)
    requires ShowsAll(x, items, prev.thread.turns) && SnapshotsAgree(snaps, prev.thread.turns)
    ensures ShowsAll(x, ReplayItems(items, DiffEvents(prev, next, snaps)), next.thread.turns)
       <==> AllReportable(x, prev.thread.turns, next.activeTurnId, next.thread.turns)
  {
    hide DiffEvents, TurnItemEvents, ChangeReportable, Shows, SnapshotsAgree, Fold;
    DiffTouchesItems(prev, next, snaps, items);
    forall t | t in next.thread.turns ensures DistinctIn(t.items) {
      var a :| 0 <= a < |next.thread.turns| && next.thread.turns[a] == t;
      DistinctInTurn(next.thread.turns, a);
    }
    TurnsReplay(x, items, prev.thread.turns, next.activeTurnId, next.thread.turns, snaps);
  }

  lemma {:induction false} DiffTouchesItems(prev: Projection, next: Projection, snaps: Snapshots, items: Items)
    ensures ReplayItems(items, DiffEvents(prev, next, snaps))
         == ReplayItems(items, TurnItemEvents(prev.thread.turns, next.activeTurnId, next.thread.turns, snaps))
  {
    hide DiffEvents, TurnItemEvents, LifecycleEvents, ResolvedEvents, StatusEvents, Fold;
    var a, b, c, d := DiffParts(prev, next, snaps);
    FoldFour(ApplyToItems, items, a, b, c, d);
    NoTargetIdle(items, a);
    var after := ReplayItems(items, b);
    NoTargetIdle(after, c);
    NoTargetIdle(after, d);
  }

  // ----- Lifecycle, status and requests -----

  /** The active turn of a projection is among its turns. */
  ghost predicate ActiveListed(p: Projection) {
    p.activeTurnId.Some? ==> FindTurn(p.thread.turns, p.activeTurnId.value).Some?
  }

  /** The last active turn is not deleted while no other becomes active. */
  ghost predicate KeepsActiveTurn(prev: Projection, next: Projection) {
    prev.activeTurnId.Some? && next.activeTurnId.None? ==> FindTurn(next.thread.turns, prev.activeTurnId.value).Some?
  }

  /**
    Lifecycle: the turn a consumer believes active is right after the diff exactly unless the
    active turn was deleted and no other is active, for then nothing is emitted.
   */
  lemma {:induction false} LifecycleReplay(prev: Projection, next: Projection, snaps: Snapshots)
    requires ActiveListed(next)
    ensures ReplayActive(prev.activeTurnId, DiffEvents(prev, next, snaps)) == next.activeTurnId
       <==> KeepsActiveTurn(prev, next)
  {
    hide DiffEvents, FindTurn, Fold;
    DiffTouchesActive(prev, next, snaps);
    FoldShort(ApplyToActive, prev.activeTurnId, LifecycleEvents(prev, next));
  }

  lemma {:induction false} DiffTouchesActive(prev: Projection, next: Projection, snaps: Snapshots)
    ensures ReplayActive(prev.activeTurnId, DiffEvents(prev, next, snaps))
         == ReplayActive(prev.activeTurnId, LifecycleEvents(prev, next))
  {
    hide DiffEvents, TurnItemEvents, LifecycleEvents, ResolvedEvents, StatusEvents, Fold;
    var a, b, c, d := DiffParts(prev, next, snaps);
    FoldFour(ApplyToActive, prev.activeTurnId, a, b, c, d);
    var after := ReplayActive(prev.activeTurnId, a);
    FoldIdle(ApplyToActive, after, b);
    FoldIdle(ApplyToActive, after, c);
    FoldIdle(ApplyToActive, after, d);
  }

  /** The thread status a consumer shows is always right after the diff. */
  lemma {:induction false} StatusReplay(prev: Projection, next: Projection, snaps: Snapshots)
    ensures Fold(ApplyToStatus, prev.thread.status, DiffEvents(prev, next, snaps)) == next.thread.status
  {
    hide DiffEvents, TurnItemEvents, LifecycleEvents, ResolvedEvents, Fold;
    var a, b, c, d := DiffParts(prev, next, snaps);
    var s := prev.thread.status;
    FoldFour(ApplyToStatus, s, a, b, c, d);
    FoldIdle(ApplyToStatus, s, a);
    FoldIdle(ApplyToStatus, s, b);
    FoldIdle(ApplyToStatus, s, c);
    FoldShort(ApplyToStatus, s, d);
  }

  lemma {:induction false} ResolvedReplay(waiting: set<string>, requests: seq<PendingRequest>, still: set<string>)
    ensures Fold(ApplyToWaiting, waiting, ResolvedEvents(requests, still)) == waiting - (RequestIds(requests) - still)
  {
    hide Fold, ApplyToWaiting, RequestIds;
    if requests == [] {
      NoRequests();
      FoldIdle(ApplyToWaiting, waiting, []);
    } else {
      var front, last := requests[..|requests| - 1], requests[|requests| - 1];
      var resolved := if last.id !in still then [ServerRequestResolved(last.id)] else [];
      ResolvedReplay(waiting, front, still);
      RequestIdsLast(requests);
      FoldConcat(ApplyToWaiting, waiting, ResolvedEvents(front, still), resolved);
      ResolvedOne(waiting - (RequestIds(front) - still), last.id, still);
    }
  }

  lemma NoRequests()
    ensures RequestIds([]) == {}
  {
  }

  lemma RequestIdsLast(requests: seq<PendingRequest>)
    requires requests != []
    ensures RequestIds(requests) == RequestIds(requests[..|requests| - 1]) + {requests[|requests| - 1].id}
  {
    assert forall r :: r in requests <==> r in requests[..|requests| - 1] || r == requests[|requests| - 1];
  }

  lemma ResolvedOne(waiting: set<string>, id: string, still: set<string>)
    ensures Fold(ApplyToWaiting, waiting, if id !in still then [ServerRequestResolved(id)] else [])
         == waiting - ({id} - still)
  {
    FoldShort(ApplyToWaiting, waiting, if id !in still then [ServerRequestResolved(id)] else []);
  }

  /** A diff resolves the requests that are gone, and only those. */
  lemma {:induction false} WaitingReplay(prev: Projection, next: Projection, snaps: Snapshots, waiting: set<string>)
    ensures Fold(ApplyToWaiting, waiting, DiffEvents(prev, next, snaps))
         == waiting - (WaitingIds(prev) - WaitingIds(next))
  {
    hide DiffEvents, TurnItemEvents, LifecycleEvents, ResolvedEvents, StatusEvents, RequestIds, Fold;
    var a, b, c, d := DiffParts(prev, next, snaps);
    FoldFour(ApplyToWaiting, waiting, a, b, c, d);
    FoldIdle(ApplyToWaiting, waiting, a);
    FoldIdle(ApplyToWaiting, waiting, b);
    var still := WaitingIds(next);
    FoldConcat(ApplyToWaiting, waiting, ResolvedEvents(prev.pendingApprovals, still),
               ResolvedEvents(prev.pendingUserInputs, still));
    ResolvedReplay(waiting, prev.pendingApprovals, still);
    ResolvedReplay(waiting - (RequestIds(prev.pendingApprovals) - still), prev.pendingUserInputs, still);
    FoldIdle(ApplyToWaiting, Fold(ApplyToWaiting, waiting, c), d);
  }

  // ----- Text snapshots -----

  lemma {:induction false} InsertItemsRecords(snaps: Snapshots, items: seq<ThreadItem>)
    requires DistinctIn(items)
    ensures forall i :: i in items ==> Lookup(InsertItems(snaps, items), i.id) == Some(SnapshotItem(i))
    ensures forall id :: (forall i :: i in items ==> i.id != id) ==>
              Lookup(InsertItems(snaps, items), id) == Lookup(snaps, id)
  {
    hide SnapshotItem;
    if items != [] {
      var front, last := items[..|items| - 1], items[|items| - 1];
      assert forall i :: i in items <==> i in front || i == last;
      InsertItemsRecords(snaps, front);
      assert forall i :: i in front ==> i.id != last.id;
    }
  }

  lemma DistinctInTurn(turns: seq<Turn>, a: nat)
    requires DistinctItemIds(turns) && a < |turns|
    ensures DistinctIn(turns[a].items)
  {
  }

  /** After a diff or a seed every item's snapshot is present and agrees, whatever it was before. */
  lemma {:induction false} InsertTurnsRecords(snaps: Snapshots, turns: seq<Turn>)
    requires DistinctItemIds(turns)
    ensures forall t, i :: t in turns && i in t.items ==>
              Lookup(InsertTurns(snaps, turns), i.id) == Some(SnapshotItem(i))
  {
    hide SnapshotItem, InsertItems, Lookup;
    if turns != [] {
      var front, last := turns[..|turns| - 1], turns[|turns| - 1];
      assert forall t :: t in turns <==> t in front || t == last;
      assert DistinctItemIds(front);
      InsertTurnsRecords(snaps, front);
      DistinctInTurn(turns, |turns| - 1);
      InsertItemsRecords(InsertTurns(snaps, front), last.items);
      forall t, i | t in front && i in t.items ensures forall j :: j in last.items ==> j.id != i.id {
        var a :| 0 <= a < |front| && front[a] == t;
        var k :| 0 <= k < |t.items| && t.items[k] == i;
        assert turns[a].items[k] == i;
      }
    }
  }

  // ----- Streaming and quiet -----

  /**
    Appended text is streamed, as one delta of just the new bytes; any other change of a text
    sends the whole item, and a command whose status and output stand still sends nothing.
   */
  lemma GrowthIsStreamed(turnId: string, prev: ThreadItem, next: ThreadItem, snap: Option<ItemTextSnapshot>)
    requires prev.id == next.id && Agrees(snap, prev)
    ensures prev.AgentMessage? && next.AgentMessage? ==>
              ItemDiff(turnId, prev, next, snap) ==
              [if prev.text < next.text then AgentMessageDelta(turnId, next.id, next.text[|prev.text|..])
               else ItemCompleted(turnId, next)]
    ensures prev.Plan? && next.Plan? ==>
              ItemDiff(turnId, prev, next, snap) ==
              [if prev.text < next.text then PlanDelta(turnId, next.id, next.text[|prev.text|..])
               else ItemCompleted(turnId, next)]
    ensures prev.CommandExecution? && next.CommandExecution? ==>
              var a, b := OutputText(prev.output), OutputText(next.output);
              ItemDiff(turnId, prev, next, snap) ==
              if prev.status == next.status && a < b then [CommandExecutionOutputDelta(turnId, next.id, b[|a|..])]
              else if prev.status == next.status && prev.output == next.output then []
              else [ItemCompleted(turnId, next)]
  {
    hide Growth, ReasoningEvents;
    if prev.AgentMessage? || prev.Plan? {
      GrowthOfPrefix(prev.text, if next.AgentMessage? || next.Plan? then next.text else []);
    } else if prev.CommandExecution? && next.CommandExecution? {
      GrowthOfPrefix(OutputText(prev.output), OutputText(next.output));
    }
  }

  lemma {:induction false} ItemsByIdFinds(items: seq<ThreadItem>)
    requires DistinctIn(items)
    ensures forall i :: i in items ==> i.id in ItemsById(items) && ItemsById(items)[i.id] == i
  {
    if items != [] {
      var front, last := items[..|items| - 1], items[|items| - 1];
      assert forall i :: i in items <==> i in front || i == last;
      ItemsByIdFinds(front);
      assert forall i :: i in front ==> i.id != last.id;
    }
  }

  lemma {:induction false} TurnsByIdFinds(turns: seq<Turn>)
    requires DistinctTurnIds(turns)
    ensures forall t :: t in turns ==> t.id in TurnsById(turns) && TurnsById(turns)[t.id] == t
  {
    if turns != [] {
      var front, last := turns[..|turns| - 1], turns[|turns| - 1];
      assert forall t :: t in turns <==> t in front || t == last;
      TurnsByIdFinds(front);
      assert forall t :: t in front ==> t.id != last.id;
    }
  }

  lemma {:induction false} UnchangedItemsQuiet(
      turnId: string, active: bool, prev: map<string, ThreadItem>, items: seq<ThreadItem>, snaps: Snapshots)
    requires forall i :: i in items ==> i.id in prev && prev[i.id] == i
    ensures ItemEvents(turnId, active, prev, items, snaps) == []
  {
    hide ItemDiff;
    if items != [] {
      UnchangedItemsQuiet(turnId, active, prev, items[..|items| - 1], snaps);
    }
  }

  lemma {:induction false} UnchangedTurnsQuiet(
      prev: seq<Turn>, activeTurnId: Option<string>, turns: seq<Turn>, snaps: Snapshots)
    requires forall t, i :: t in turns && i in t.items ==>
               i.id in PrevItems(prev, t.id) && PrevItems(prev, t.id)[i.id] == i
    ensures TurnItemEvents(prev, activeTurnId, turns, snaps) == []
  {
    hide ItemEvents, PrevItems;
    if turns != [] {
      var last := turns[|turns| - 1];
      UnchangedTurnsQuiet(prev, activeTurnId, turns[..|turns| - 1], snaps);
      UnchangedItemsQuiet(last.id, activeTurnId == Some(last.id), PrevItems(prev, last.id), last.items, snaps);
    }
  }

  lemma {:induction false} StillWaitingQuiet(requests: seq<PendingRequest>, still: set<string>)
    requires forall r :: r in requests ==> r.id in still
    ensures ResolvedEvents(requests, still) == []
  {
    if requests != [] {
      StillWaitingQuiet(requests[..|requests| - 1], still);
    }
  }

  /** With distinct ids the diff finds each old item by the ids of its turn and its own. */
  lemma {:induction false} PrevItemFound(p: Projection, t: Turn, item: ThreadItem)
    requires Distinct(p) && t in p.thread.turns && item in t.items
    ensures item.id in PrevItems(p.thread.turns, t.id) && PrevItems(p.thread.turns, t.id)[item.id] == item
  {
    hide ItemsById, TurnsById;
    var turns := p.thread.turns;
    TurnsByIdFinds(turns);
    var a :| 0 <= a < |turns| && turns[a] == t;
    DistinctInTurn(turns, a);
    ItemsByIdFinds(t.items);
  }

  /** Identical projections with distinct ids emit nothing, whatever the text snapshots. */
  lemma {:induction false} IdenticalQuiet(p: Projection, snaps: Snapshots)
    requires Distinct(p)
    ensures DiffEvents(p, p, snaps) == []
  {
    hide TurnItemEvents, ResolvedEvents, PrevItems, Distinct;
    var turns := p.thread.turns;
    forall t, i | t in turns && i in t.items
      ensures i.id in PrevItems(turns, t.id) && PrevItems(turns, t.id)[i.id] == i
    {
      PrevItemFound(p, t, i);
    }
    UnchangedTurnsQuiet(turns, p.activeTurnId, turns, snaps);
    StillWaitingQuiet(p.pendingApprovals, WaitingIds(p));
    StillWaitingQuiet(p.pendingUserInputs, WaitingIds(p));
  }

  // ----- New items -----

  lemma {:induction false} NewItemsAreItemEvents(
      turnId: string, active: bool, items: seq<ThreadItem>, snaps: Snapshots)
    ensures NewItemEvents(turnId, items) == ItemEvents(turnId, active, map[], items, snaps)
  {
    if items != [] {
      NewItemsAreItemEvents(turnId, active, items[..|items| - 1], snaps);
    }
  }

  /** Starting and completing the items of a turn shows them, whatever was shown, and touches no other turn. */
  lemma {:induction false} InstallTurn(x: Extent, items: Items, turnId: string, news: seq<ThreadItem>)
    requires DistinctIn(news)
    ensures var after := ReplayItems(items, NewItemEvents(turnId, news));
            && (forall i :: i in news ==> Shows(x, after, turnId, i))
            && forall key :: !IsKeyOf(key, turnId, news) ==> SameAt(after, items, key)
  {
    hide ItemEvents, Fold, Shows, SameAt, NewItemEvents, IsKeyOf;
    NewItemsAreItemEvents(turnId, false, news, map[]);
    TurnReplay(x, items, turnId, false, map[], news, map[]);
  }

  lemma {:induction false} NewItemEventsTargeted(turnId: string, items: seq<ThreadItem>)
    ensures forall e :: e in NewItemEvents(turnId, items) ==> e.ItemStarted? || e.ItemCompleted?
  {
    if items != [] {
      NewItemEventsTargeted(turnId, items[..|items| - 1]);
    }
  }
}
