/**
  What the bridge gets wrong, by example: full replacements that leave a stale text snapshot
  (with the condition under which they mislead), changes that are reported in part, and the
  deletion of the only active turn. Raw states are seeded with the plain codec.
 */
module Shortfalls {
  import opened Wrappers
  import opened Json
  import opened ImmerPatch
  import opened Thread
  import opened Utf8
  import opened ConversationState
  import opened PlainCodec
  import opened Diff
  import opened Replay
  import opened TextSnapshots
  import opened Bridge
  import opened BridgeRuns

  // ----- Full replacements -----

  lemma OneItemNormal(turnId: string, item: ThreadItem)
    requires !item.UserMessage? && !item.OtherItem?
    ensures var turn := Turn(turnId, [item], InProgress, None);
            NormalTurns([turn]) == [turn] && LastInProgress([turn]) == Some(turnId)
  {
    var turn := Turn(turnId, [item], InProgress, None);
    assert [item][1..] == [] && Survivors([], [], InProgress) == [];
    assert Survivors([item], [], InProgress) == [item];
    assert NormalTurn(turn) == turn;
    assert [turn][1..] == [];
  }

  /** Every projection of one item is that of some raw state. */
  lemma OneItemProjects(c: Codec, id: string, status: ThreadStatus, turnId: string, item: ThreadItem)
    requires Lawful(c) && Reads(c.decodeItem, item) && !item.UserMessage? && !item.OtherItem?
    ensures var p := OneItemProjection(id, status, turnId, item); ProjectState(c, id, SeedState(c, p.thread)) == Ok(p)
  {
    hide Lawful, ProjectState, SeedState, NormalTurns, LastInProgress, Reads;
    var thread := OneItemProjection(id, status, turnId, item).thread;
    OneItemNormal(turnId, item);
    SeedThenProject(c, thread, id);
  }

  lemma ProjectedThreadId(c: Codec, id: string, raw: Value, p: Projection)
    requires ProjectState(c, id, raw) == Ok(p)
    ensures p.thread.id == id
  {
    hide DecodeState, ProjectTurns, PendingRequests, ResolveStatus, ActiveTurnId;
  }

  lemma TextHasTexts(a: ThreadItem, b: ThreadItem)
    requires SameButText(a, b)
    ensures !a.UserMessage? && !b.UserMessage? && !b.OtherItem?
  {
  }

  /** Is the change taken up, and such that a diff can report it? */
  ghost predicate TakenUpReported(x: Extent, c: Codec, s: Threads, id: string, change: Change)
    requires id in s
  {
    var accepted := Accept(c, s, id, change);
    && accepted.Some?
    && WellReported(x, s[id].projection, accepted.value.projection)
    && KeepsActiveTurn(s[id].projection, accepted.value.projection)
  }

  /** The next broadcast is answered by events that bring the view up to date. */
  ghost predicate Follows(x: Extent, s': Threads, id: string, view: View, out: Output) {
    out.Events? && id in s' && Shown(x, s'[id], ReplayView(view, out.events))
  }

  /** One broadcast that the text snapshots in the cache make go wrong. */
  lemma {:induction false} StaleMisleads(c: Codec, max: nat, s: Threads, id: string, view: View, now: int)
    returns (change: Change, s': Threads, out: Output)
    requires Lawful(c) && ReadsText(c) && TakesText(c) && Coherent(c, s) && id in s
    requires !HasSynthesizedTurn(s[id].projection) && Distinct(s[id].projection)
    requires ShowsAll(OfText, view.items, s[id].projection.thread.turns) && !Ready(s[id])
    ensures StreamStep(c, max, s, id, change, now, s', out)
    ensures forall x :: TakenUpReported(x, c, s, id, change)
    ensures !Follows(OfText, s', id, view, out)
  {
    hide Lawful, ReadsText, ProjectState, SeedState, DiffEvents, DiffFits, HasSynthesizedTurn, Agrees, WellReported,
      ShowsAll, InsertTurns, AllTextsValid, Distinct, Fold, Reads, ValidTexts, SameButText;
    var cache := s[id];
    var prev := cache.projection;
    ProjectedThreadId(c, id, cache.raw, prev);
    ProjectedTextsValid(c, id, cache.raw);
    var t, item :| t in prev.thread.turns && item in t.items && !Agrees(Lookup(cache.snapshots, item.id), item);
    var next, changed := ProjectionMisread(prev, cache.snapshots, view.items, prev.thread.status, t, item);
    ProjectedRead(c, id, cache.raw);
    TextHasTexts(item, changed);
    assert Reads(c.decodeItem, changed);
    OneItemProjects(c, id, prev.thread.status, t.id, changed);
    var raw := SeedState(c, next.thread);
    change := Snapshot(raw);
    assert Accept(c, s, id, change) == Some(Accepted(raw, next));
    if DiffFits(prev, next, cache.snapshots) {
      s' := s[id := ThreadCache(raw, next, now, InsertTurns(cache.snapshots, next.thread.turns))];
      out := Events(id, DiffEvents(prev, next, cache.snapshots));
    } else {
      s', out := s, Panicked(id);
    }
  }

  /**
    What a full replacement leaves behind decides what comes next: from a thread that is shown
    and holds no synthesised turn (as after a full replacement), every change that a diff can
    report is followed without a panic if and only if the text snapshots agree with its items.
   */
  lemma {:induction false} ReplacementDecides(x: Extent, c: Codec, max: nat, s: Threads, id: string, view: View)
    requires Lawful(c) && ReadsText(c) && TakesText(c) && Coherent(c, s) && id in s
    requires !HasSynthesizedTurn(s[id].projection) && Distinct(s[id].projection) && Shown(x, s[id], view)
    ensures (forall change, now: int, s', out ::
               StreamStep(c, max, s, id, change, now, s', out) && TakenUpReported(x, c, s, id, change) ==>
                 Follows(x, s', id, view, out))
       <==> Ready(s[id])
  {
    hide StreamStep, TakenUpReported, Follows, Lawful, ReadsText, Coherent, Ready, Shown, HasSynthesizedTurn, Distinct;
    if Ready(s[id]) {
      forall change, now: int, s', out |
          StreamStep(c, max, s, id, change, now, s', out) && TakenUpReported(x, c, s, id, change)
        ensures Follows(x, s', id, view, out)
      {
        ReadyFollows(x, c, max, s, id, change, now, s', out, view);
      }
    } else {
      ShownAsText(x, s[id], view);
      var change, s', out := StaleMisleads(c, max, s, id, view, 0);
      if Follows(x, s', id, view, out) {
        FollowsAsText(x, s', id, view, out);
      }
      assert TakenUpReported(x, c, s, id, change);
    }
  }

  lemma {:induction false} ReadyFollows(
      x: Extent, c: Codec, max: nat, s: Threads, id: string, change: Change, now: int, s': Threads, out: Output,
      view: View)
    requires ReadsText(c) && Coherent(c, s) && id in s && Ready(s[id]) && Shown(x, s[id], view)
    requires !HasSynthesizedTurn(s[id].projection)
    requires StreamStep(c, max, s, id, change, now, s', out) && TakenUpReported(x, c, s, id, change)
    ensures Follows(x, s', id, view, out)
  {
    hide ReadsText, ProjectState, Accept, DiffEvents, DiffFits, HasSynthesizedTurn, Agrees, ShowsAll, InsertTurns,
      AllTextsValid, Distinct, AllReportable, KeepsActiveTurn, Shown, Fold, SnapshotsAgree;
    var a := Accept(c, s, id, change).value;
    AcceptProjects(c, s, id, change);
    ProjectedTextsValid(c, id, s[id].raw);
    AgreeingDiffFits(s[id].projection, a.projection, s[id].snapshots);
    DiffKeepsStep(x, c, id, s[id], a, now, s'[id].snapshots, view);
  }

  lemma ShownAsText(x: Extent, cache: ThreadCache, view: View)
    requires Shown(x, cache, view)
    ensures ShowsAll(OfText, view.items, cache.projection.thread.turns)
  {
    if x.Whole? {
      ShownWhole(view.items, cache.projection.thread.turns);
    }
  }

  lemma FollowsAsText(x: Extent, s': Threads, id: string, view: View, out: Output)
    requires Follows(x, s', id, view, out)
    ensures Follows(OfText, s', id, view, out)
  {
    hide ShowsAll, ReplayView, WaitingIds;
    if x.Whole? {
      ShownAsText(x, s'[id], ReplayView(view, out.events));
    }
  }

  // ----- Two runs -----

  function Message(text: Text): ThreadItem {
    AgentMessage("m", text, "")
  }

  /** A thread `t` of one turn with one message. */
  function OneMessage(turnId: string, text: Text): Projection {
    OneItemProjection("t", Idle, turnId, Message(text))
  }

  function Raw(p: Projection): Value {
    SeedState(Plain(), p.thread)
  }

  function Sending(p: Projection, now: int): BridgeOp {
    Process(StreamStateChanged("t", Snapshot(Raw(p))), now)
  }

  lemma OneMessageProjects(turnId: string, text: Text)
    requires Valid(text)
    ensures var p := OneMessage(turnId, text); ProjectState(Plain(), "t", Raw(p)) == Ok(p)
  {
    hide ProjectState, SeedState, Lawful, ReadsText, TakesText, ReadsCommands, Plain, Valid, Reads;
    PlainIsLawful();
    MessageRead(text);
    OneItemProjects(Plain(), "t", Idle, turnId, Message(text));
  }

  lemma MessageRead(text: Text)
    requires Valid(text)
    ensures Reads(Plain().decodeItem, Message(text))
  {
    hide ReadItem, WriteItem, Reads;
    ItemRoundTrip(Message(text));
  }

  lemma OneMessageDistinct(turnId: string, text: Text)
    ensures Distinct(OneMessage(turnId, text))
  {
  }

  /** The first snapshot of a thread, to an empty cache. */
  lemma FirstSent(p: Projection, now: int)
    requires ProjectState(Plain(), "t", Raw(p)) == Ok(p)
    ensures Step(Plain(), 64, map[], Sending(p, now), map["t" := FreshCache(Accepted(Raw(p), p), now)],
                 Reply(Events("t", FirstEvents(p)), []))
  {
    hide ProjectState, SeedState, Plain, FirstEvents, FreshCache;
    var s: Threads := map["t" := FreshCache(Accepted(Raw(p), p), now)];
    var none: Threads := map[];
    assert none["t" := FreshCache(Accepted(Raw(p), p), now)] == s && |s| == 1;
  }

  /** The next one, to a cache of that thread alone. */
  lemma NextSent(cache: ThreadCache, p: Projection, now: int, snaps: Snapshots, out: Output)
    requires ProjectState(Plain(), "t", Raw(p)) == Ok(p)
    requires if HasSynthesizedTurn(cache.projection) && !HasSynthesizedTurn(p)
             then out == FullReplace("t") && snaps == cache.snapshots
             else && DiffFits(cache.projection, p, cache.snapshots)
                  && out == Events("t", DiffEvents(cache.projection, p, cache.snapshots))
                  && snaps == InsertTurns(cache.snapshots, p.thread.turns)
    ensures Step(Plain(), 64, map["t" := cache], Sending(p, now), map["t" := ThreadCache(Raw(p), p, now, snaps)],
                 Reply(out, []))
  {
    hide ProjectState, SeedState, Plain, DiffEvents, DiffFits, InsertTurns, HasSynthesizedTurn;
    var s: Threads := map["t" := cache];
    assert s["t" := ThreadCache(Raw(p), p, now, snaps)] == map["t" := ThreadCache(Raw(p), p, now, snaps)];
  }

  const H: Text := [0x48]
  const HI: Text := [0x48, 0x69]
  const HI_MARK: Text := [0x48, 0x69, 0x21]
  const HII_MARK: Text := [0x48, 0x69, 0x69, 0x21]

  lemma TextsAreValid()
    ensures Valid(H) && Valid(HI) && Valid(HI_MARK)
  {
    AsciiIsValid(H);
    AsciiIsValid(HI);
    AsciiIsValid(HI_MARK);
  }

  /** The diff from `Hi` to `Hi!` under the length of `H`. */
  lemma StaleDiff(snaps: Snapshots, items: Items)
    requires snaps == map["m" := SnapshotItem(Message(H))] && ("u", "m") in items && items[("u", "m")] == Message(HI)
    ensures var prev, next := OneMessage("u", HI), OneMessage("u", HI_MARK);
            && DiffFits(prev, next, snaps)
            && ReplayItems(items, DiffEvents(prev, next, snaps)) == items[("u", "m") := Message(HII_MARK)]
  {
    hide DiffEvents, Fold, PrevItems;
    var prev, next := OneMessage("u", HI), OneMessage("u", HI_MARK);
    OneMessageDistinct("u", HI);
    PrevItemFound(prev, prev.thread.turns[0], Message(HI));
    OneItemEventsOnly(prev, "t", Idle, "u", Message(HI_MARK), snaps, items);
    var events := OneItemEvents("u", true, PrevItems(prev.thread.turns, "u"), Message(HI_MARK), snaps);
    assert HI[..1] <= HI_MARK;
    assert events == [AgentMessageDelta("u", "m", HI_MARK[1..])];
    ReplayAbout(items, ("u", "m"), events);
    FollowOne(Message(HI), events);
    assert HI + HI_MARK[1..] == HII_MARK;
  }

  lemma CopiedItem(turnId: string, text: Text)
    ensures var items := CopyItems(OneMessage(turnId, text).thread.turns);
            items == map[(turnId, "m") := Message(text)]
  {
    hide ReplayItems;
    var turns := OneMessage(turnId, text).thread.turns;
    assert turns[..0] == [] && turns[0].items[..0] == [];
    InstallNew(map[], turnId, Message(text));
    assert NewItemEvents(turnId, [Message(text)])
        == [] + [ItemStarted(turnId, Message(text)), ItemCompleted(turnId, Message(text))]
        == [ItemStarted(turnId, Message(text)), ItemCompleted(turnId, Message(text))];
  }

  lemma OneMessageSynthesized(turnId: string, text: Text)
    ensures HasSynthesizedTurn(OneMessage(turnId, text)) <==> "ipc-turn-" <= turnId
  {
    var p := OneMessage(turnId, text);
    assert p.thread.turns[0] in p.thread.turns;
  }

  /** A message `H` in a turn without an id of its own becomes `Hi` in one that has an id, and then `Hi!`. */
  function First(): ThreadCache {
    FreshCache(Accepted(Raw(OneMessage("ipc-turn-0", H)), OneMessage("ipc-turn-0", H)), 0)
  }

  function Replaced(text: Text): ThreadCache {
    ThreadCache(Raw(OneMessage("u", text)), OneMessage("u", text), 1, map["m" := SnapshotItem(Message(H))])
  }

  function Misled(): ThreadCache {
    var p := OneMessage("u", HI_MARK);
    ThreadCache(Raw(p), p, 2, InsertTurns(Replaced(HI).snapshots, p.thread.turns))
  }

  function StaleRun(): (r: Run)
    ensures WellSized(r)
  {
    Run([map[], map["t" := First()], map["t" := Replaced(HI)], map["t" := Misled()]],
        [Sending(OneMessage("ipc-turn-0", H), 0), Sending(OneMessage("u", HI), 1),
         Sending(OneMessage("u", HI_MARK), 2)],
        [Reply(Events("t", FirstEvents(OneMessage("ipc-turn-0", H))), []), Reply(FullReplace("t"), []),
         Reply(Events("t", DiffEvents(OneMessage("u", HI), OneMessage("u", HI_MARK), Replaced(HI).snapshots)), [])])
  }

  lemma FirstStep()
    ensures Step(Plain(), 64, map[], Sending(OneMessage("ipc-turn-0", H), 0), map["t" := First()],
                 Reply(Events("t", FirstEvents(OneMessage("ipc-turn-0", H))), []))
    ensures Distinct(First().projection)
  {
    hide Step, ProjectState, SeedState, Plain, FirstEvents, InsertTurns, Distinct;
    TextsAreValid();
    OneMessageProjects("ipc-turn-0", H);
    OneMessageDistinct("ipc-turn-0", H);
    FirstSent(OneMessage("ipc-turn-0", H), 0);
    FreshProjection(Accepted(Raw(OneMessage("ipc-turn-0", H)), OneMessage("ipc-turn-0", H)), 0);
  }

  lemma ReplaceStep(text: Text)
    requires Valid(text)
    ensures Step(Plain(), 64, map["t" := First()], Sending(OneMessage("u", text), 1), map["t" := Replaced(text)],
                 Reply(FullReplace("t"), []))
    ensures Distinct(Replaced(text).projection)
  {
    hide Step, ProjectState, SeedState, Plain, HasSynthesizedTurn, InsertTurns, Distinct, Valid;
    OneMessageProjects("u", text);
    OneMessageDistinct("u", text);
    OneMessageSynthesized("ipc-turn-0", H);
    OneMessageSynthesized("u", text);
    MessageRecorded("ipc-turn-0", H);
    FreshProjection(Accepted(Raw(OneMessage("ipc-turn-0", H)), OneMessage("ipc-turn-0", H)), 0);
    NextSent(First(), OneMessage("u", text), 1, Replaced(text).snapshots, FullReplace("t"));
  }

  lemma StaleRunReplaces()
    ensures StepAt(Plain(), 64, StaleRun(), 0) && DistinctAt(StaleRun(), 0)
    ensures StepAt(Plain(), 64, StaleRun(), 1) && DistinctAt(StaleRun(), 1)
  {
    hide Step, SeedState, Plain, DiffEvents, FirstEvents, InsertTurns, Distinct, Misled, First, Replaced;
    TextsAreValid();
    FirstStep();
    ReplaceStep(HI);
  }

  lemma StaleRunDiffs()
    ensures StepAt(Plain(), 64, StaleRun(), 2) && DistinctAt(StaleRun(), 2)
    ensures CopyItems(OneMessage("u", HI).thread.turns) == map[("u", "m") := Message(HI)]
    ensures ReplayItems(map[("u", "m") := Message(HI)], StaleRun().replies[2].output.events)
         == map[("u", "m") := Message(HII_MARK)]
  {
    hide Step, ProjectState, SeedState, Plain, HasSynthesizedTurn, DiffEvents, DiffFits, FirstEvents, InsertTurns,
      CopyItems, Fold, Distinct, First, SnapshotItem;
    TextsAreValid();
    OneMessageProjects("u", HI_MARK);
    OneMessageDistinct("u", HI_MARK);
    OneMessageSynthesized("u", HI);
    CopiedItem("u", HI);
    var items: Items := map[("u", "m") := Message(HI)];
    StaleDiff(Replaced(HI).snapshots, items);
    assert items[("u", "m") := Message(HII_MARK)] == map[("u", "m") := Message(HII_MARK)];
    NextSent(Replaced(HI), OneMessage("u", HI_MARK), 2, Misled().snapshots, StaleRun().replies[2].output);
  }

  lemma StaleRunViews()
    ensures ViewsAfter(StaleRun(), 2) == map["t" := CopyView(OneMessage("u", HI))]
    ensures ViewsAfter(StaleRun(), 3) ==
            map["t" := ReplayView(CopyView(OneMessage("u", HI)), StaleRun().replies[2].output.events)]
  {
    hide DiffEvents, FirstEvents, InsertTurns, CopyView, ReplayView, SeedState, First, SnapshotItem, Plain;
    var r := StaleRun();
    assert ViewsAfter(r, 1).Keys == {"t"};
    assert ViewsAfter(r, 2) == ViewsAfter(r, 1)["t" := CopyView(OneMessage("u", HI))];
    assert ViewsAfter(r, 3) ==
      ViewsAfter(r, 2)["t" := ReplayView(ViewsAfter(r, 2)["t"], StaleRun().replies[2].output.events)];
  }

  /** The second step replaces the thread, and after the third, fully reported, the phone shows `Hii!`. */
  lemma StaleReplacement() returns (r: Run)
    ensures IsRun(Plain(), 64, r) && |r.ops| == 3 && r.replies[1].output == FullReplace("t")
    ensures forall i :: 0 <= i < 3 ==> DistinctAt(r, i) && ReportedAt(Whole, r, i)
    ensures "t" in r.states[3] && r.states[3]["t"].projection == OneMessage("u", HI_MARK)
    ensures "t" in ViewsAfter(r, 3) && ViewsAfter(r, 3)["t"].items == map[("u", "m") := Message(HII_MARK)]
    ensures ShownAt(Whole, r, 2) && !ShownAt(OfText, r, 3)
  {
    hide StepAt, DistinctAt, DiffEvents, FirstEvents, InsertTurns, CopyItems, SeedState, First, SnapshotItem, Plain,
      Fold, Distinct, AllReportable, KeepsActiveTurn, ViewsAfter, Shown;
    r := StaleRun();
    StaleRunReplaces();
    StaleRunDiffs();
    StaleRunViews();
    GrowingReportable();
    OneMessageDistinct("u", HI);
    CopyKeepsStep(Whole, Replaced(HI));
    NotShown(Misled(), ViewsAfter(r, 3)["t"]);
  }

  lemma MessageRecorded(turnId: string, text: Text)
    ensures InsertTurns(map[], OneMessage(turnId, text).thread.turns) == map["m" := SnapshotItem(Message(text))]
  {
    hide SnapshotItem;
    var turns := OneMessage(turnId, text).thread.turns;
    assert turns[..0] == [] && turns[0].items[..0] == [];
    assert InsertItems(map[], turns[0].items) == map["m" := SnapshotItem(Message(text))];
  }

  lemma GrowingReportable()
    ensures var p1, p2 := OneMessage("u", HI), OneMessage("u", HI_MARK);
            AllReportable(Whole, p1.thread.turns, p2.activeTurnId, p2.thread.turns) && KeepsActiveTurn(p1, p2)
  {
    hide PrevItems;
    OneMessageDistinct("u", HI);
    var p1 := OneMessage("u", HI);
    PrevItemFound(p1, p1.thread.turns[0], Message(HI));
  }

  lemma NotShown(cache: ThreadCache, view: View)
    requires cache.projection == OneMessage("u", HI_MARK) && view.items == map[("u", "m") := Message(HII_MARK)]
    ensures !Shown(OfText, cache, view)
  {
    var turns := cache.projection.thread.turns;
    assert turns[0] in turns && turns[0].items[0] in turns[0].items;
    assert !Shows(OfText, view.items, "u", Message(HI_MARK));
  }

  /** An e with an acute accent, of two bytes, alone and with an exclamation mark. */
  const ACCENTED: Text := [0xC3, 0xA9]
  const ACCENTED_MARK: Text := [0xC3, 0xA9, 0x21]

  /** The message becomes an accented letter instead, and then gets its mark. */
  function PanicRun(): (r: Run)
    ensures WellSized(r)
  {
    Run([map[], map["t" := First()], map["t" := Replaced(ACCENTED)], map["t" := Replaced(ACCENTED)]],
        [Sending(OneMessage("ipc-turn-0", H), 0), Sending(OneMessage("u", ACCENTED), 1),
         Sending(OneMessage("u", ACCENTED_MARK), 2)],
        [Reply(Events("t", FirstEvents(OneMessage("ipc-turn-0", H))), []), Reply(FullReplace("t"), []),
         Reply(Panicked("t"), [])])
  }

  /** The length of `H` lies inside the accented letter. */
  lemma PanicStep()
    ensures Step(Plain(), 64, map["t" := Replaced(ACCENTED)], Sending(OneMessage("u", ACCENTED_MARK), 2),
                 map["t" := Replaced(ACCENTED)], Reply(Panicked("t"), []))
  {
    hide ProjectState, SeedState, Plain, HasSynthesizedTurn, DiffEvents, InsertTurns, PrevItems, GrowthFits;
    var p1, p2 := OneMessage("u", ACCENTED), OneMessage("u", ACCENTED_MARK);
    AccentedText();
    OneMessageProjects("u", ACCENTED_MARK);
    OneMessageSynthesized("u", ACCENTED);
    OneMessageDistinct("u", ACCENTED);
    PrevItemFound(p1, p1.thread.turns[0], Message(ACCENTED));
    var turns := p2.thread.turns;
    assert turns[0] in turns && turns[0].items[0] in turns[0].items;
  }

  /** After the replacement the next snapshot, of valid text, panics. */
  lemma StaleLengthPanics() returns (r: Run)
    ensures IsRun(Plain(), 64, r) && |r.ops| == 3 && forall i :: 0 <= i < 3 ==> DistinctAt(r, i)
    ensures r.replies[1].output == FullReplace("t") && r.replies[2].output == Panicked("t")
    ensures "t" in r.states[3] && r.states[3]["t"].projection == OneMessage("u", ACCENTED)
    ensures r.ops[2] == Sending(OneMessage("u", ACCENTED_MARK), 2) && Valid(ACCENTED_MARK)
  {
    hide Step, SeedState, Plain, FirstEvents, Distinct, First, InsertTurns;
    AccentedText();
    FirstStep();
    ReplaceStep(ACCENTED);
    PanicStep();
    r := PanicRun();
    assert StepAt(Plain(), 64, r, 0) && StepAt(Plain(), 64, r, 1) && StepAt(Plain(), 64, r, 2);
  }

  lemma AccentedText()
    ensures Valid(ACCENTED) && Valid(ACCENTED_MARK) && !GrowthFits(ACCENTED, ACCENTED_MARK, |H|)
  {
    var mark: Text := [0x21];
    WellFormedCharIsValid(ACCENTED);
    WellFormedCharIsValid(mark);
    ValidConcat(ACCENTED, mark);
    assert ACCENTED + mark == ACCENTED_MARK;
    assert Continuation(ACCENTED[1]);
  }

  /** The same thread, its turns deleted. */
  const NO_TURNS := Projection(Thread("t", Idle, []), None, [], [])

  /** When the only active turn is deleted nothing is emitted, and the phone goes on showing it as active. */
  lemma DeletedActiveTurn() returns (r: Run)
    ensures IsRun(Plain(), 64, r) && |r.ops| == 2 && r.replies[1].output == Events("t", [])
    ensures forall i :: 0 <= i < 2 ==> DistinctAt(r, i) && CleanAt(r, i)
    ensures "t" in r.states[2] && r.states[2]["t"].projection.activeTurnId == None
    ensures "t" in ViewsAfter(r, 2) && ViewsAfter(r, 2)["t"].active == Some("u")
    ensures ShownAt(Whole, r, 1) && !ShownAt(OfText, r, 2)
  {
    hide Step, ProjectState, SeedState, Plain, HasSynthesizedTurn, DiffFits, FirstEvents, InsertTurns, DiffEvents,
      CopyItems, Fold, Distinct;
    var p0, p1 := OneMessage("u", HI), NO_TURNS;
    TextsAreValid();
    OneMessageProjects("u", HI);
    NoTurnsProject();
    OneMessageSynthesized("u", HI);
    OneMessageDistinct("u", HI);
    NoTurnsDistinct();
    var c0 := FreshCache(Accepted(Raw(p0), p0), 0);
    FreshProjection(Accepted(Raw(p0), p0), 0);
    NothingEmitted(c0.snapshots);
    var c1 := ThreadCache(Raw(p1), p1, 1, InsertTurns(c0.snapshots, []));
    FirstSent(p0, 0);
    NextSent(c0, p1, 1, c1.snapshots, Events("t", []));
    r := Run([map[], map["t" := c0], map["t" := c1]], [Sending(p0, 0), Sending(p1, 1)],
             [Reply(Events("t", FirstEvents(p0)), []), Reply(Events("t", []), [])]);
    assert StepAt(Plain(), 64, r, 0) && StepAt(Plain(), 64, r, 1);
    BootstrapKeepsStep(Whole, Plain(), "t", Accepted(Raw(p0), p0), 0);
    var view := ReplayView(CopyView(p0), FirstEvents(p0));
    assert ViewsAfter(r, 1) == map["t" := view];
    FoldShort(ApplyToActive, view.active, []);
    assert ViewsAfter(r, 2) == map["t" := ReplayView(view, [])];
  }

  lemma NoTurnsDistinct()
    ensures Distinct(NO_TURNS)
  {
  }

  lemma NoTurnsProject()
    ensures ProjectState(Plain(), "t", Raw(NO_TURNS)) == Ok(NO_TURNS)
  {
    hide ProjectState, SeedState, Lawful, ReadsText, TakesText, ReadsCommands, Plain;
    PlainIsLawful();
    SeedThenProject(Plain(), NO_TURNS.thread, "t");
    assert NormalTurns([]) == [] && LastInProgress([]) == None;
  }

  lemma NothingEmitted(snaps: Snapshots)
    ensures DiffEvents(OneMessage("u", HI), NO_TURNS, snaps) == [] && DiffFits(OneMessage("u", HI), NO_TURNS, snaps)
  {
  }

  // ----- Changes reported in part -----

  /** A reasoning item with one part extended and another rewritten reports the extension alone. */
  lemma MixedReasoning()
    ensures var prev := Reasoning("r", [H, HI], []);
            var next := Reasoning("r", [HI, H], []);
            && ItemDiff("u", prev, next, Some(SnapshotItem(prev))) == [ReasoningSummaryTextDelta("u", "r", HI[1..], 0)]
            && Follow(prev, ItemDiff("u", prev, next, Some(SnapshotItem(prev)))) == Reasoning("r", [HI, HI], [])
  {
    hide ReasoningEvents;
    var prev := Reasoning("r", [H, HI], []);
    MixedEvents();
    FollowOne(prev, [ReasoningSummaryTextDelta("u", "r", HI[1..], 0)]);
    assert AppendAt(prev.summary, 0, HI[1..]) == [H + HI[1..], HI];
    assert H + HI[1..] == HI;
  }

  lemma MixedEvents()
    ensures var prev, next := Reasoning("r", [H, HI], []), Reasoning("r", [HI, H], []);
            ReasoningEvents("u", prev, next, Some(SnapshotItem(prev)))
            == [ReasoningSummaryTextDelta("u", "r", HI[1..], 0)]
  {
    hide SummaryPartEvents, ThoughtPartEvents;
    var prev, next := Reasoning("r", [H, HI], []), Reasoning("r", [HI, H], []);
    var lens, events := SummaryLens(Some(SnapshotItem(prev))), [ReasoningSummaryTextDelta("u", "r", HI[1..], 0)];
    MixedParts(lens);
    assert SummaryEvents("u", "r", prev.summary, next.summary, lens, 0) == [];
    assert SummaryEvents("u", "r", prev.summary, next.summary, lens, 1) == [] + events == events;
    assert SummaryEvents("u", "r", prev.summary, next.summary, lens, 2) == events + [] == events;
  }

  lemma MixedParts(lens: Option<seq<nat>>)
    requires lens == Some(Lengths([H, HI]))
    ensures SummaryPartEvents("u", "r", [H, HI], [HI, H], lens, 0)
         == [ReasoningSummaryTextDelta("u", "r", HI[1..], 0)]
    ensures SummaryPartEvents("u", "r", [H, HI], [HI, H], lens, 1) == []
  {
    GrowthOfPrefix(H, HI);
  }

  /** A message that grows and changes its other fields at once reports the growth alone. */
  lemma GrowthDropsRest()
    ensures var prev := AgentMessage("m", H, "draft");
            var next := AgentMessage("m", HI, "final");
            && ItemDiff("u", prev, next, Some(SnapshotItem(prev))) == [AgentMessageDelta("u", "m", HI[1..])]
            && Follow(prev, ItemDiff("u", prev, next, Some(SnapshotItem(prev)))) == AgentMessage("m", HI, "draft")
  {
    var prev, next := AgentMessage("m", H, "draft"), AgentMessage("m", HI, "final");
    GrowthOfPrefix(H, HI);
    FollowOne(prev, ItemDiff("u", prev, next, Some(SnapshotItem(prev))));
  }
}
