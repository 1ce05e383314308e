# Keeping two views of a conversation in step

Baozi shows on a phone the conversation that an agent is having on a desktop. The desktop sends
snapshots of a raw JSON state and patches to it; the phone's bridge applies them, projects the raw
state to a typed thread, and tells its consumer what changed by a stream of events. This project
models that path and its neighbours in Dafny and proves what they keep:

- `Json`, `ImmerPatch`: patches on a JSON tree, in place, with their algebra.
- `Thread`, `ConversationState`, `RawState`, `ProjectedState`, `PlainCodec`: the typed thread;
  projecting raw state to it and seeding raw state from it; the raw state from its writing side;
  the rules of the projection one by one; a codec that meets the laws assumed of serialisation.
- `Diff`, `EventLog`, `Replay`, `TextSnapshots`, `TurnHeads`: the events between two projections,
  which they are and in what order, what a consumer shows after them, and what the recorded text
  lengths must be for that.
- `Bridge`, `BridgeRuns`, `ShownItems`, `Recency`: the bridge with its cache, its transition
  relation, and the invariants of all its runs. A Rust panic on slicing a string inside a
  character is an answer of its own, which leaves the cache as it was.
- `Shortfalls`: runs and inputs on which the bridge goes wrong.
- `Utf8`, `PartialJson`, `FieldSearch`, `FlatObjects`, `Truncation`: reading fields out of JSON
  that is still arriving, and cutting text to a byte cap. Strings are UTF-8 bytes (sections 3 and
  4 of RFC 3629); string spellings are those of section 7 of RFC 8259.
- `Limits`, `ResumeCursor`, `Frames`: the sequence number sent on a reconnect, and length-prefixed
  frames.
- `RateLimiter`, `PushRegistration`: the push proxy's two limits, over whole runs.

Methods follow the source's loops and fields and are proved equal to functions; lemmas about the
functions state what the source promises. `dafny verify dfyconfig.toml` checks everything. The
clock, the outcome of a push, and the meaning of a JSON line or number are parameters.

The consumer in `Replay` and `BridgeRuns` holds items by turn and item id. It takes in an item it
does not hold when that is started, and one it holds when that is completed; it appends deltas to
items it holds and to summary parts it was told of, ignores what comes out of turn, and copies the
projected state when a thread first appears, is seeded or is fully replaced. The theorems on what
it shows are stated for two extents: the text of an item (for a command its status and output; for
an item without text everything), and the whole item. Growth of a message or of a command's output
does not report their other fields, so a whole item is shown exactly when those stand still
meanwhile (`Replay.ItemReplay`, `RestReported`).

## Where the code falls short of its comments

Each with the theorem that says when, and most with an input.

- `FullReplace` keeps the old text snapshots, on the ground that item ids change. Where an id does
  not, the phone is right for the moment, and every later change is followed without a panic if and
  only if the lengths fit (`Shortfalls.ReplacementDecides`). `Shortfalls.StaleReplacement` is a run
  on which it is not, `Shortfalls.StaleLengthPanics` a step that panics. On runs whose replacements
  are clean the text snapshots always fit (`BridgeRuns.ReadyOverRuns`).
- A reasoning item that grows in one place and is rewritten in another reports the growth alone
  (`Replay.ReasoningReplay`; input: `Shortfalls.MixedReasoning`), and a message that grows keeps
  its other fields as they were (`Replay.ItemReplay`; input: `Shortfalls.GrowthDropsRest`).
- A diff never reports that an item or a turn is gone, so the phone goes on showing it
  (`ShownItems.DiffHoldsJust`). Items under synthesised turn ids are the exception: they go with
  the last such turn (`ShownItems.NoneLeftOverRuns`).
- Deleting the only active turn emits nothing (`Replay.LifecycleReplay`; run:
  `Shortfalls.DeletedActiveTurn`).
- The status and error of a turn are reported only when it starts or stops being active
  (`TurnHeads.HeadsOverRuns`; input: `TurnHeads.LateFailureUnseen`).
- `check_stale_turns` is described as reporting turns that ended unnoticed. The cache is always
  coherent, so on every run it reports nothing (`BridgeRuns.StaleCheckIdleOverRuns`).
- One pass of seeding and projecting is not always a normal form: an empty leading message is
  dropped and may expose another (`ConversationState.NormalTurnIdempotent`; input:
  `ConversationState.EmptyLeadTakesTwo`).
- The string decoder drops characters spelled as surrogate pairs
  (`PartialJson.DecodeInvertsSpelling`; input: `PartialJson.PairDecodedToNothing`).
- A number field is described as ended by white space, a comma or a brace; any byte that cannot
  belong to a number ends it (`PartialJson.NumberTextExactly`; input: `PartialJson.LetterEndsNumber`).
- Of several spellings of a key a later one may answer first and then be displaced: never, exactly
  if what it gave is empty or the value of every earlier spelling has begun and is no string
  (`FieldSearch.ExtractGrowsExactly`; input: `PartialJson.AliasMaySwitch`).
- The search is described as making sure that what it found is a key. In a printed object it finds
  the field exactly if no earlier name ends in an escaped quote and the key
  (`FlatObjects.FieldFoundExactly`; input: `FlatObjects.FalseKey`).
- A line over the buffer size leaves its tail to be read as a line
  (`ResumeCursor.CursorExactIffLinesFit`; input: `ResumeCursor.LongLineMisread`).
- A limiter whose clock reads less than before may let a request through with ten accepted in its
  window; it is right exactly if the reading at hand is not behind an earlier one, however those
  moved (`RateLimiter.RefusalExactIffNotBehind`; run: `RateLimiter.ClockMustNotStepBack`).

## Model

| member | source | states |
|---|---|---|
| `BridgeRuns.PhoneShowsDesktop` | shared/rust-bridge/codex-ipc/src/bridge.rs:718-884 | End to end, for texts and for whole items: on a fully reported run with clean replacements the phone shows, of every cached thread, the projection of the desktop's last accepted snapshot or seed with all patches accepted since folded over it |
| `BridgeRuns.InStepOverRuns` | shared/rust-bridge/codex-ipc/src/bridge.rs:718-818 | Whole-run view agreement, for texts and for whole items: on a run with distinct ids and clean replacements a consumer that copies the projected state on first appearance, seed and full replacement and otherwise only replays events shows the cache after every operation (items, active turn, status, no resolved request) if and only if every diff is fully reported |
| `BridgeRuns.StepKeepsStep` | shared/rust-bridge/codex-ipc/src/bridge.rs:698-884 | One operation, whichever it is, keeps that agreement exactly when it is no diff or a fully reported one: changes of the active turn's items reportable, the only active turn not deleted |
| `BridgeRuns.DiffKeepsStep` | shared/rust-bridge/codex-ipc/src/bridge.rs:781-794 | A diffed update keeps it exactly when all its changes are reportable and the only active turn is not deleted, given text snapshots that agree |
| `BridgeRuns.CopyKeepsStep` | shared/rust-bridge/codex-ipc/src/bridge.rs:763-785 | Copying a cached projection shows all of it |
| `BridgeRuns.StepKeepsReady` | shared/rust-bridge/codex-ipc/src/bridge.rs:718-884 | Agreement of the text snapshots with the cached items survives every operation, if a full replacement brings only items that the ones it leaves in place fit |
| `BridgeRuns.ReadyOverRuns` | shared/rust-bridge/codex-ipc/src/bridge.rs:718-884 | So on every run with clean replacements each cached text snapshot fits its cached item |
| `BridgeRuns.NoPanicOverRuns` | shared/rust-bridge/codex-ipc/src/bridge.rs:301-548 | And no diff of such a run slices a string inside a character |
| `Shortfalls.ReplacementDecides` | shared/rust-bridge/codex-ipc/src/bridge.rs:763-794 | Why replacements must be clean: from a shown thread as a full replacement leaves it, every next change that a diff can report is followed without a panic if and only if the text snapshots agree; under any lawful codec whose items may hold any valid text |
| `Shortfalls.StaleReplacement` | shared/rust-bridge/codex-ipc/src/bridge.rs:763-794 | A run of three snapshots whose full replacement leaves a stale length: fully reported, in step after the replacement, and wrong after the next diff |
| `Shortfalls.StaleLengthPanics` | shared/rust-bridge/codex-ipc/src/bridge.rs:763-794 | A run of three snapshots of valid text: the second replaces the thread, and the third panics |
| `Shortfalls.DeletedActiveTurn` | shared/rust-bridge/codex-ipc/src/bridge.rs:153-212 | A run on which the only active turn is deleted, nothing is emitted, and the phone shows it as active |
| `Shortfalls.MixedReasoning` | shared/rust-bridge/codex-ipc/src/bridge.rs:387-497 | A reasoning item extended in one part and rewritten in another, and what is shown of it |
| `Shortfalls.GrowthDropsRest` | shared/rust-bridge/codex-ipc/src/bridge.rs:321-338 | A message that grows and changes another field, and what is shown of it |
| `BridgeRuns.BootstrapReplay` | shared/rust-bridge/codex-ipc/src/bridge.rs:619-668 | Replaying the bootstrap events over a copy of the projection changes nothing that is shown |
| `BridgeRuns.CoherentOverRuns` | shared/rust-bridge/codex-ipc/src/bridge.rs:718-818 | In every reachable state each cached projection is the projection of its cached raw state |
| `BridgeRuns.StaleCheckIdleOverRuns` | shared/rust-bridge/codex-ipc/src/bridge.rs:822-855 | So on every run the staleness check emits nothing and changes nothing, for any clock and threshold |
| `BridgeRuns.StaleCheckIdle` | shared/rust-bridge/codex-ipc/src/bridge.rs:822-855 | The same from any coherent state |
| `BridgeRuns.CheckedExactly` | shared/rust-bridge/codex-ipc/src/bridge.rs:822-855 | For any one cached thread, coherent or not: exactly when its turn is active by the cache and not by a fresh projection, for at least the threshold, the projection is renewed and that turn reported as completed |
| `BridgeRuns.CheckedEach` | shared/rust-bridge/codex-ipc/src/bridge.rs:822-855 | Every cached thread is checked so, and an event is reported if and only if the check of some thread reports it |
| `BridgeRuns.BroadcastAtomic` | shared/rust-bridge/codex-ipc/src/bridge.rs:725-759 | A refresh is asked for exactly when patches have no base, one of them fails, or the result does not project, and a panic happens exactly when the diff slices inside a character; then nothing changes, and otherwise no other thread is altered |
| `BridgeRuns.OtherAnswers` | shared/rust-bridge/codex-ipc/src/bridge.rs:703-713 | Archiving drops the thread named and answers so; unarchiving and all else touch nothing |
| `BridgeRuns.HistoryOverRuns` | shared/rust-bridge/codex-ipc/src/bridge.rs:718-884 | A cached raw state always equals the last accepted snapshot or seed with all later accepted patches applied to it in one batch; refused broadcasts leave no trace |
| `BridgeRuns.FromSourcesStep` | shared/rust-bridge/codex-ipc/src/bridge.rs:718-884 | One operation keeps that account, read off the operations and replies alone |
| `Recency.RunRefinesRecencyList` | shared/rust-bridge/codex-ipc/src/bridge.rs:718-921 | With strictly increasing times of the broadcasts and seeds that write threads, the timestamped cache is a recency list on every run, and never holds more than its size |
| `Recency.StepRefines` | shared/rust-bridge/codex-ipc/src/bridge.rs:718-921 | One operation does to the cache what move-to-front, drop-last or delete does to the list |
| `Recency.EvictionKeepsFirst` | shared/rust-bridge/codex-ipc/src/bridge.rs:907-921 | Eviction keeps exactly the most recently updated threads that fit |
| `Recency.UpdateMovesToFront` | shared/rust-bridge/codex-ipc/src/bridge.rs:791-794 | Writing a thread at a later time than all others moves it to the front and keeps the order of the rest |
| `Bridge.IpcBridge.HandleStreamStateChanged` | shared/rust-bridge/codex-ipc/src/bridge.rs:718-818 | Applies, projects, then diffs, bootstraps or replaces: exactly one step of the transition relation, errors and panics included; when it replaces is the next row |
| `ShownItems.ReplacedExactly` | shared/rust-bridge/codex-ipc/src/bridge.rs:763-785 | An accepted change asks for a full replacement if and only if some turn of the cached projection has an id that starts with `ipc-turn-` and no turn of the new one has |
| `ShownItems.ReplacementHoldsJust` | shared/rust-bridge/codex-ipc/src/bridge.rs:763-785 | The consumer then holds exactly the items of the new projection |
| `ShownItems.NoneLeftOverRuns` | shared/rust-bridge/codex-ipc/src/bridge.rs:763-785 | On every run, while a cached thread has no turn with a synthesised id the consumer holds no item under one |
| `ShownItems.DiffHolds` | shared/rust-bridge/codex-ipc/src/bridge.rs:216-298 | After a diff the consumer holds what it held and the items of the new projection, and no others |
| `ShownItems.DiffHoldsJust` | shared/rust-bridge/codex-ipc/src/bridge.rs:216-298 | So it holds just those if and only if no item of the old projection is gone |
| `ShownItems.CopyHoldsJust` | shared/rust-bridge/codex-ipc/src/bridge.rs:763-785 | A copy holds exactly the items copied |
| `ShownItems.FirstAnswered` | shared/rust-bridge/codex-ipc/src/bridge.rs:794-816 | The events answered when a thread first appears show its active turn in full, and nothing else, to a consumer that holds nothing |
| `Bridge.IpcBridge.ProcessBroadcast` | shared/rust-bridge/codex-ipc/src/bridge.rs:698-715 | Dispatches a broadcast; archiving drops the thread, unarchiving and the rest change nothing |
| `Bridge.IpcBridge.EvictLru` | shared/rust-bridge/codex-ipc/src/bridge.rs:907-921 | The loop ends with at most the maximum, evicts nothing when there is room, and evicts nothing newer than a survivor, in whatever order the hash map is walked |
| `Bridge.IpcBridge.CheckStaleTurns` | shared/rust-bridge/codex-ipc/src/bridge.rs:822-855 | Checks every thread once, in some order, and changes or reports what a fresh projection says |
| `Bridge.IpcBridge.SeedThread` | shared/rust-bridge/codex-ipc/src/bridge.rs:860-884 | A seed that projects replaces the thread and may evict; one that does not is ignored |
| `Bridge.ApplyStreamChange` | shared/rust-bridge/codex-ipc/src/conversation_state.rs:362-383 | A snapshot replaces the state; patches need a base and apply in full or give an error |
| `Replay.DiffReplay` | shared/rust-bridge/codex-ipc/src/bridge.rs:112-150 | A consumer that shows the old projection's items, by text or whole, shows the new one's after the diff exactly when every change to the active turn is reportable; ids distinct, text snapshots absent or agreeing |
| `Replay.TurnsReplay` | shared/rust-bridge/codex-ipc/src/bridge.rs:216-298 | Item by item and turn by turn: each new item is shown exactly when its change is reportable, and other turns are untouched |
| `Replay.ItemReplay` | shared/rust-bridge/codex-ipc/src/bridge.rs:301-548 | One item: following the events of its diff gives the new text (with status and output for commands), or the whole new item, exactly when the change is reportable: for reasoning by its growth, and for the whole item if the fields no event carries stand still while text grows |
| `Replay.ReasoningReplay` | shared/rust-bridge/codex-ipc/src/bridge.rs:387-497 | A reasoning item is reported by deltas exactly when some part grows or appears, and then rightly exactly when it is append-only and does not end in a new empty thought |
| `Replay.GrowthIsStreamed` | shared/rust-bridge/codex-ipc/src/bridge.rs:321-363 | Appended agent, plan and command text is streamed as one delta of just the new bytes, and only appended text is |
| `Replay.IdenticalQuiet` | shared/rust-bridge/codex-ipc/src/bridge.rs:112-150 | Identical projections emit nothing |
| `Replay.LifecycleReplay` | shared/rust-bridge/codex-ipc/src/bridge.rs:153-212 | The consumer's active turn is right after a diff exactly unless the active turn was deleted and none other is active |
| `Replay.StatusReplay` | shared/rust-bridge/codex-ipc/src/bridge.rs:128-140 | The consumer's thread status is always right after a diff |
| `Replay.WaitingReplay` | shared/rust-bridge/codex-ipc/src/bridge.rs:570-609 | A diff resolves exactly the requests that are gone |
| `Replay.InsertTurnsRecords` | shared/rust-bridge/codex-ipc/src/bridge.rs:142-147 | Afterwards every item's text snapshot is present and of the new item, whatever it was before |
| `TextSnapshots.SnapshotsMustAgree` | shared/rust-bridge/codex-ipc/src/bridge.rs:112-150 | From a state that is shown, every next state that a diff can report is reached without a panic and shown if and only if each recorded length fits the item it is of, whatever the kind of item |
| `TextSnapshots.ItemSnapshotMustAgree` | shared/rust-bridge/codex-ipc/src/bridge.rs:301-548 | The same of one item and its text snapshot |
| `TextSnapshots.ProjectionMisread` | shared/rust-bridge/codex-ipc/src/bridge.rs:216-298 | For every stale length a next state, of valid text and reportable, that is not shown, by text or whole |
| `TextSnapshots.MisreadText` | shared/rust-bridge/codex-ipc/src/bridge.rs:321-338 | The extension of a text that a stale length misreports, and that it panics exactly when the length is inside a character |
| `TextSnapshots.SentExactly` | shared/rust-bridge/codex-ipc/src/bridge.rs:321-338 | Whatever length is recorded, what is sent is what lies past it, if up to there nothing was rewritten |
| `TextSnapshots.SlicesExactly` | shared/rust-bridge/codex-ipc/src/bridge.rs:321-338 | And a panic happens exactly when it cuts a character of the old text, or of the new one where that is sliced |
| `TextSnapshots.LensAgreeExactly` | shared/rust-bridge/codex-ipc/src/bridge.rs:421-423 | A part without a recorded length is harmless |
| `BridgeRuns.StepRecords` | shared/rust-bridge/codex-ipc/src/bridge.rs:142-147 | After a diff, a first appearance or a seed the text lengths of every item are recorded as it now is |
| `EventLog.LastRecorded` | shared/rust-bridge/codex-ipc/src/bridge.rs:99-109 | Of items with one id, in whichever turns, the last is recorded |
| `TextSnapshots.AgreeingDiffFits` | shared/rust-bridge/codex-ipc/src/bridge.rs:301-548 | With valid texts and agreeing lengths every slice of a diff falls on a character boundary |
| `TextSnapshots.AgreeingGrowthFits` | shared/rust-bridge/codex-ipc/src/bridge.rs:321-338 | So a delta cuts the new text at a boundary and is valid UTF-8 |
| `TurnHeads.HeadsReplay` | shared/rust-bridge/codex-ipc/src/bridge.rs:153-212 | After a diff a turn shows its status and error exactly if it stopped or started being active, or they are what they were |
| `TurnHeads.HeadsOverRuns` | shared/rust-bridge/codex-ipc/src/bridge.rs:718-884 | On every run a turn shows its status and error at any step exactly if they are what they were when it was last copied with its thread or last stopped or started being active |
| `TurnHeads.HeadsStep` | shared/rust-bridge/codex-ipc/src/bridge.rs:718-884 | What is held of a turn after one operation: how it stands if the operation tells, and otherwise what was held |
| `TurnHeads.LateFailureUnseen` | shared/rust-bridge/codex-ipc/src/bridge.rs:153-212 | A completed turn that fails later: nothing is emitted |
| `Diff.DiffProjections` | shared/rust-bridge/codex-ipc/src/bridge.rs:112-150 | The whole diff, in its order, and the refreshed text snapshots; or a panic, before they are refreshed |
| `Diff.DiffTurnItems` | shared/rust-bridge/codex-ipc/src/bridge.rs:216-298 | The events of every item of every turn, as the next rows tell them apart; or a panic |
| `EventLog.ItemLog` | shared/rust-bridge/codex-ipc/src/bridge.rs:216-298 | All that a whole diff says of one item: a new one is started and then completed, an unchanged one not mentioned, a changed one completed once, and in the active turn alone told by its difference |
| `EventLog.NoItemLog` | shared/rust-bridge/codex-ipc/src/bridge.rs:216-298 | Of an item that the new projection has not, it says nothing |
| `EventLog.StartedExactly` | shared/rust-bridge/codex-ipc/src/bridge.rs:216-298 | An item is announced as started if and only if its turn did not have it |
| `EventLog.DiffStartsComplete` | shared/rust-bridge/codex-ipc/src/bridge.rs:272-295 | Every start is followed at once by the completion of that item |
| `EventLog.LogsInOrder` | shared/rust-bridge/codex-ipc/src/bridge.rs:234-296 | What a diff says of items is the logs of the items one after the other, in the order listed |
| `EventLog.PhasesInOrder` | shared/rust-bridge/codex-ipc/src/bridge.rs:119-140 | A turn that completes, one that starts, the items, the requests, the status: in this order, the first two and the last at most once |
| `EventLog.LifecycleExactly` | shared/rust-bridge/codex-ipc/src/bridge.rs:153-212 | A turn is announced as started if and only if it becomes the active one, and as completed if and only if it was and no longer is, both as the new projection has it |
| `EventLog.ResolvedExactly` | shared/rust-bridge/codex-ipc/src/bridge.rs:570-609 | A request is announced as resolved if and only if it was pending, as approval or user input, and is no longer pending as either |
| `EventLog.ResolvedInOrder` | shared/rust-bridge/codex-ipc/src/bridge.rs:585-608 | Once for each entry, approvals first, in their order |
| `EventLog.StatusExactly` | shared/rust-bridge/codex-ipc/src/bridge.rs:128-140 | A status is announced if and only if it is the new one and not the old |
| `EventLog.LastItemStays` | shared/rust-bridge/codex-ipc/src/bridge.rs:233-239 | Of items with one id the last is compared with |
| `EventLog.FindsFirst` | shared/rust-bridge/codex-ipc/src/bridge.rs:611-613 | Of turns with one id the first is found |
| `Diff.DiffItem` | shared/rust-bridge/codex-ipc/src/bridge.rs:301-548 | The events of one changed item, or a panic exactly when one of its slices is inside a character |
| `Diff.DiffReasoning` | shared/rust-bridge/codex-ipc/src/bridge.rs:387-497 | The part-by-part deltas of a reasoning item, or a panic |
| `EventLog.ReasoningLog` | shared/rust-bridge/codex-ipc/src/bridge.rs:387-497 | A reasoning item that grows: a summary part is announced if and only if it is new, text is sent if and only if it was appended and just what was, part by part, nothing twice and nothing else; one that does not grow is sent whole |
| `EventLog.OthersWhole` | shared/rust-bridge/codex-ipc/src/bridge.rs:543-547 | Any other change, of kind or of a kind without text, sends the whole item |
| `Diff.DiffPendingRequests` | shared/rust-bridge/codex-ipc/src/bridge.rs:570-609 | One resolution for each request that is gone |
| `Diff.RecordTexts` | shared/rust-bridge/codex-ipc/src/bridge.rs:99-109 | The text snapshots of all items of all turns |
| `Diff.BootstrapEvents` | shared/rust-bridge/codex-ipc/src/bridge.rs:619-668 | The events of a first appearance, as the next two rows say, and the text snapshots of all items |
| `EventLog.FirstAppearance` | shared/rust-bridge/codex-ipc/src/bridge.rs:619-668 | From nothing the first events show the active turn: they open with its start, each of its items is started and completed, held in full, and no other is; without an active turn there are none |
| `EventLog.FirstIsDiff` | shared/rust-bridge/codex-ipc/src/bridge.rs:619-668 | They are the diff from the same projection had its active turn not begun |
| `ConversationState.SeedThenProject` | shared/rust-bridge/codex-ipc/src/conversation_state.rs:338-360 | Projecting a seed keeps the thread's status and turns, each turn in normal form, and names its last turn in progress as active; for threads of decodable items and errors, under round trips of decodable values alone |
| `ConversationState.SeedProjectFixpoint` | shared/rust-bridge/codex-ipc/src/conversation_state.rs:338-360 | A second pass gives the same projection exactly when one pass was enough for every turn; a third never changes anything |
| `ConversationState.NormalTurnIdempotent` | shared/rust-bridge/codex-ipc/src/conversation_state.rs:468-490 | The exact condition on a turn for one pass to reach the normal form |
| `ConversationState.NormalTurnReachedInTwo` | shared/rust-bridge/codex-ipc/src/conversation_state.rs:468-490 | Two passes reach it for every turn |
| `ConversationState.EmptyLeadTakesTwo` | shared/rust-bridge/codex-ipc/src/conversation_state.rs:468-490 | A turn whose empty leading message hides another: two passes, with different results |
| `ConversationState.NonEmptyMessagesNormaliseAtOnce` | shared/rust-bridge/codex-ipc/src/conversation_state.rs:468-490 | One pass does when every user message has content and the turn starts with a supported item |
| `ConversationState.ProjectSeededTurn` | shared/rust-bridge/codex-ipc/src/conversation_state.rs:385-446 | A seeded turn projects to its normal form: ids, status and error kept, leading message renamed, copies dropped, interrupted commands failed |
| `ProjectedState.SeedIsWritten` | shared/rust-bridge/codex-ipc/src/conversation_state.rs:468-490 | A turn is seeded as the desktop would write it, a leading message as its input |
| `ProjectedState.SeededItems` | shared/rust-bridge/codex-ipc/src/conversation_state.rs:478-484 | And of its items those of the sixteen types, in order |
| `ConversationState.ActiveTurnInProgress` | shared/rust-bridge/codex-ipc/src/conversation_state.rs:735-741 | The active turn of a projection is one of its turns and in progress |
| `ConversationState.InterruptedCommandsSettled` | shared/rust-bridge/codex-ipc/src/conversation_state.rs:448-466 | No projected command is still running that its turn or its own id marks as interrupted |
| `ProjectedState.CommandStatusExactly` | shared/rust-bridge/codex-ipc/src/conversation_state.rs:448-466 | A command is projected as failed if it was in progress in an interrupted turn or is itself named as interrupted, and else as it was |
| `ProjectedState.OthersPassedOver` | shared/rust-bridge/codex-ipc/src/conversation_state.rs:401-407 | Items without a type, or of none of the sixteen types, are passed over |
| `ProjectedState.ReadAsItStands` | shared/rust-bridge/codex-ipc/src/conversation_state.rs:409-433 | An item of the others is read as it stands, dropped if it repeats the input, and an error if it cannot be read |
| `ConversationState.WaitingIsFlagged` | shared/rust-bridge/codex-ipc/src/conversation_state.rs:670-706 | An active thread carries the flag of everything that is pending, and without a runtime status is active exactly when it has an active turn or a pending request |
| `ProjectedState.PendingExactly` | shared/rust-bridge/codex-ipc/src/conversation_state.rs:536-661 | A request is pending if and only if it is not marked completed, has one of the three approval methods (or the user-input method), an id, and fitting parameters |
| `ProjectedState.PendingInOrder` | shared/rust-bridge/codex-ipc/src/conversation_state.rs:536-661 | One entry for each such request, in their order |
| `ProjectedState.CompletedIsResolved` | shared/rust-bridge/codex-ipc/src/bridge.rs:570-609 | Over one diff: a request that was open and is now only found marked completed is announced as resolved |
| `ProjectedState.StatusRules` | shared/rust-bridge/codex-ipc/src/conversation_state.rs:670-733 | The status in full: the runtime status, flags of what is pending added behind an active one, or else not loaded, active, failed or idle by these rules |
| `ProjectedState.ActiveExactly` | shared/rust-bridge/codex-ipc/src/conversation_state.rs:735-741 | The active turn is the last in progress, by its own id, and none if that has none |
| `ConversationState.ProjectedTextsValid` | shared/rust-bridge/codex-ipc/src/conversation_state.rs:385-446 | Every text of a projection is valid, if what is decoded is |
| `ConversationState.ProjectedRead` | shared/rust-bridge/codex-ipc/src/conversation_state.rs:385-446 | Every item of a projection but a turn's input was decoded from the raw state |
| `ConversationState.ProjectTurn` | shared/rust-bridge/codex-ipc/src/conversation_state.rs:385-446 | The loop over raw items: skips, normalises, decodes, fails or keeps each in order |
| `ProjectedState.TurnIs` | shared/rust-bridge/codex-ipc/src/conversation_state.rs:385-446 | A turn in full: id, status, error, its input as a first message if it has any, and then its items |
| `ProjectedState.ItemsConcat` | shared/rust-bridge/codex-ipc/src/conversation_state.rs:400-434 | Items are read one by one and kept in order; the first that fails is the error |
| `ProjectedState.TurnIds` | shared/rust-bridge/codex-ipc/src/conversation_state.rs:389-392 | A turn keeps its id or is given one that names its place |
| `ProjectedState.DecimalSpells` | shared/rust-bridge/codex-ipc/src/conversation_state.rs:389-392 | In decimal digits |
| `ProjectedState.TurnStatusNames` | shared/rust-bridge/codex-ipc/src/conversation_state.rs:790-798 | The statuses by name; any other is completed |
| `ProjectedState.ProjectsExactly` | shared/rust-bridge/codex-ipc/src/conversation_state.rs:234-248 | A state projects if and only if it is read and each of its turns projects, each in its place |
| `RawState.DecodeInvertsTurn` | shared/rust-bridge/codex-ipc/src/conversation_state.rs:168-191 | A turn is read as it was written, whatever of its empty fields was left out and whatever else is there |
| `RawState.DecodeInvertsRequest` | shared/rust-bridge/codex-ipc/src/conversation_state.rs:193-203 | So is a request |
| `RawState.DecodeInvertsState` | shared/rust-bridge/codex-ipc/src/conversation_state.rs:116-157 | And the state around them |
| `RawState.TurnReadExactly` | shared/rust-bridge/codex-ipc/src/conversation_state.rs:168-191 | A turn is refused exactly if it is no object or a field has the wrong type |
| `RawState.RequestReadExactly` | shared/rust-bridge/codex-ipc/src/conversation_state.rs:193-203 | So is a request |
| `RawState.StateReadExactly` | shared/rust-bridge/codex-ipc/src/conversation_state.rs:116-157 | And the state |
| `ConversationState.MergeActiveFlags` | shared/rust-bridge/codex-ipc/src/conversation_state.rs:722-733 | The merged flags are those of either list |
| `PlainCodec.PlainIsLawful` | shared/rust-bridge/codex-ipc/src/conversation_state.rs:663-668 | The laws assumed of serialisation can be met, all at once |
| `PlainCodec.PlainIsLikeRust` | shared/rust-bridge/codex-ipc/src/conversation_state.rs:663-668 | And together with what is true of the Rust types: decoded inputs are valid text, only supported kinds are decoded, and a context compaction is determined by its id |
| `ImmerPatch.ReadBack` | shared/rust-bridge/codex-ipc/src/conversation_state.rs:867-993 | A successful Add or Replace reads back at its path |
| `ImmerPatch.FrameUnshifted` | shared/rust-bridge/codex-ipc/src/conversation_state.rs:867-1024 | A patch that moves no array element leaves every incomparable path as it was, errors included |
| `ImmerPatch.FrameShifted` | shared/rust-bridge/codex-ipc/src/conversation_state.rs:967-1024 | An array Add or Remove moves each later sibling by exactly one and nothing else |
| `ImmerPatch.RemoveUndoesAdd` | shared/rust-bridge/codex-ipc/src/conversation_state.rs:967-1024 | Remove undoes Add exactly at an array index, at a key that was absent, or at a null root |
| `ImmerPatch.AddUndoesRemove` | shared/rust-bridge/codex-ipc/src/conversation_state.rs:967-1024 | Add undoes Remove, given the value that was there |
| `ImmerPatch.ReplacesCommute` | shared/rust-bridge/codex-ipc/src/conversation_state.rs:939-965 | Two successful Replaces at incomparable paths commute |
| `ImmerPatch.EditAtParent` | shared/rust-bridge/codex-ipc/src/conversation_state.rs:889-904 | Editing at a path is finding the parent, editing it and putting it back |
| `ImmerPatch.BatchesConcat` | shared/rust-bridge/codex-ipc/src/conversation_state.rs:857-865 | A batch split in two is the same batch |
| `ImmerPatch.BatchStopsHalfway` | shared/rust-bridge/codex-ipc/src/conversation_state.rs:857-865 | A batch on its own stops half applied, with what precedes the failing patch done |
| `ImmerPatch.Document.NavigateToPath` | shared/rust-bridge/codex-ipc/src/conversation_state.rs:907-937 | The walk along a path, and where and how it fails |
| `ImmerPatch.Document.ApplyOneImmerPatch` | shared/rust-bridge/codex-ipc/src/conversation_state.rs:867-905 | One patch changes the document, or fails and leaves it |
| `ImmerPatch.Document.ApplyImmerPatches` | shared/rust-bridge/codex-ipc/src/conversation_state.rs:857-865 | Patches in order up to the first failure |
| `ImmerPatch.AppliesExactly` | shared/rust-bridge/codex-ipc/src/conversation_state.rs:867-1024 | A patch applies if and only if its parent is there and takes it, and it has a value if it writes one |
| `ImmerPatch.FailsAs` | shared/rust-bridge/codex-ipc/src/conversation_state.rs:867-1024 | And otherwise which error it gives |
| `ImmerPatch.NavigateFailsAs` | shared/rust-bridge/codex-ipc/src/conversation_state.rs:907-937 | A walk fails where it first cannot go on, with the segment, or index and length, or kind |
| `ImmerPatch.RemovedIsGone` | shared/rust-bridge/codex-ipc/src/conversation_state.rs:995-1024 | A removed key, or last element, is gone |
| `PartialJson.DecodeInvertsSpelling` | shared/rust-bridge/codex-mobile-client/src/conversation.rs:1476-1548 | Decoding inverts every JSON spelling of every string, whatever follows the closing quote, exactly when no character is spelled as a surrogate pair |
| `PartialJson.HexReadExactly` | shared/rust-bridge/codex-mobile-client/src/conversation.rs:1498-1517 | Four bytes are read as a code if and only if they are the hexadecimal digits of it, in either case |
| `PartialJson.EscapeRead` | shared/rust-bridge/codex-mobile-client/src/conversation.rs:1489-1497 | The eight one-letter escapes, and no other |
| `PartialJson.HexEscapeExactly` | shared/rust-bridge/codex-mobile-client/src/conversation.rs:1498-1517 | A `\u` escape is read if and only if its four bytes are such digits, or a plus sign and three |
| `PartialJson.UnknownEscapeKept` | shared/rust-bridge/codex-mobile-client/src/conversation.rs:1518-1522 | An unknown escape is kept with its backslash |
| `PartialJson.StrayByteSkipped` | shared/rust-bridge/codex-mobile-client/src/conversation.rs:1529-1537 | A byte that cannot lead a character is skipped |
| `PartialJson.MalformedStops` | shared/rust-bridge/codex-mobile-client/src/conversation.rs:1538-1545 | A malformed character ends the value |
| `PartialJson.DecodeInvertsPrint` | shared/rust-bridge/codex-mobile-client/src/conversation.rs:1476-1548 | In particular the usual printer's spelling |
| `PartialJson.PairDecodedToNothing` | shared/rust-bridge/codex-mobile-client/src/conversation.rs:1486-1528 | A character spelled as RFC 8259 asks and decoded to nothing |
| `PartialJson.DecodeStreamed` | shared/rust-bridge/codex-mobile-client/src/conversation.rs:1476-1548 | A cut inside an escape or a multi-byte character hides that character and no other |
| `PartialJson.DecodeMonotone` | shared/rust-bridge/codex-mobile-client/src/conversation.rs:1476-1548 | More bytes only ever append to the decoded value |
| `PartialJson.DecodeValid` | shared/rust-bridge/codex-mobile-client/src/conversation.rs:1476-1548 | The decoded value is valid UTF-8, whatever the bytes |
| `PartialJson.DecodePartialJsonString` | shared/rust-bridge/codex-mobile-client/src/conversation.rs:1476-1548 | The loop computes the function that these rows are about, and its result is valid text |
| `PartialJson.ReadEscape` | shared/rust-bridge/codex-mobile-client/src/conversation.rs:1486-1528 | One escape: short, four hexadecimal digits (with the optional plus sign Rust accepts), unknown, or incomplete |
| `PartialJson.ReadChar` | shared/rust-bridge/codex-mobile-client/src/conversation.rs:1529-1545 | One raw character: whole, cut off, malformed, or a byte that cannot lead one |
| `PartialJson.ScanStringMonotone` | shared/rust-bridge/codex-mobile-client/src/conversation.rs:1444-1470 | Streaming monotonicity: once a field is seen every longer buffer shows an extension of its value |
| `PartialJson.ScanNumberFinal` | shared/rust-bridge/codex-mobile-client/src/conversation.rs:1580-1614 | Number finality: once its digits are delimited a number never changes |
| `PartialJson.ScanNumberDelimited` | shared/rust-bridge/codex-mobile-client/src/conversation.rs:1605-1611 | A number is read from the start of the field's value and never from digits that run to the end of the buffer |
| `PartialJson.NumberTextExactly` | shared/rust-bridge/codex-mobile-client/src/conversation.rs:1580-1614 | Digits are read if and only if the field has a value that starts with at least one byte of a number and runs into another byte inside the buffer; and which |
| `PartialJson.LetterEndsNumber` | shared/rust-bridge/codex-mobile-client/src/conversation.rs:1597-1611 | A letter ends a number |
| `PartialJson.ExtractStringMonotone` | shared/rust-bridge/codex-mobile-client/src/conversation.rs:1434-1442 | With aliases the answer only moves to an earlier alias, and grows while it does not move |
| `FieldSearch.ExtractGrowsExactly` | shared/rust-bridge/codex-mobile-client/src/conversation.rs:1434-1442 | The value only grows, however the buffer goes on, if and only if it is still empty or the value of every earlier alias has begun and is no string |
| `FieldSearch.OpenUnblocked` | shared/rust-bridge/codex-mobile-client/src/conversation.rs:1444-1470 | A field that gives no string, and is not blocked so, can still be opened with an empty one |
| `FieldSearch.BlockedForever` | shared/rust-bridge/codex-mobile-client/src/conversation.rs:1444-1470 | A blocked field never gives a string |
| `FieldSearch.ValueStartIsFirst` | shared/rust-bridge/codex-mobile-client/src/conversation.rs:1449-1465 | The search finds the value of the first quoted key that white space and a colon follow, and nothing if there is none |
| `FieldSearch.GapExactly` | shared/rust-bridge/codex-mobile-client/src/conversation.rs:1455-1461 | White space between a key and its colon is that of RFC 8259, and no other byte |
| `FieldSearch.ValueAfterGap` | shared/rust-bridge/codex-mobile-client/src/conversation.rs:1462-1466 | And between the colon and the value |
| `FieldSearch.NumberReadExactly` | shared/rust-bridge/codex-mobile-client/src/conversation.rs:1596-1614 | Digits, signs, point and exponent letters make up a number, and no other byte |
| `FlatObjects.FieldFoundExactly` | shared/rust-bridge/codex-mobile-client/src/conversation.rs:1444-1470 | In a printed flat object, cut off anywhere after the value in question begins, the search finds the value of the first field of that name if and only if no earlier name ends in an escaped quote and the key |
| `FlatObjects.FieldReadRightly` | shared/rust-bridge/codex-mobile-client/src/conversation.rs:1444-1470 | And then what is read is that field's string, as far as it has arrived |
| `FlatObjects.FalseKey` | shared/rust-bridge/codex-mobile-client/src/conversation.rs:1452-1461 | A buffer without the field for which a value is read |
| `PartialJson.AliasMaySwitch` | shared/rust-bridge/codex-mobile-client/src/conversation.rs:1434-1442 | A concrete buffer where such a move replaces the value |
| `PartialJson.ScanStringField` | shared/rust-bridge/codex-mobile-client/src/conversation.rs:1444-1470 | The search for a string field |
| `PartialJson.ScanNumberField` | shared/rust-bridge/codex-mobile-client/src/conversation.rs:1580-1614 | The search for a number field |
| `PartialJson.FindAtFirst` | shared/rust-bridge/codex-mobile-client/src/conversation.rs:1616-1624 | The search finds the first occurrence |
| `Truncation.TruncateTextBytes` | shared/rust-bridge/codex-mobile-client/src/conversation.rs:151-173 | The result fits the cap, is valid UTF-8, and is the cut that the next row characterises |
| `Truncation.TruncatedIsLongest` | shared/rust-bridge/codex-mobile-client/src/conversation.rs:151-173 | The longest valid prefix of the value that fits after the longest valid prefix of the suffix |
| `Truncation.WholeIffItFits` | shared/rust-bridge/codex-mobile-client/src/conversation.rs:151-156 | A value is left alone if and only if it is within the cap |
| `Truncation.TruncatedIdempotent` | shared/rust-bridge/codex-mobile-client/src/conversation.rs:151-173 | Truncating again changes nothing |
| `Utf8.BoundaryIffValidPrefix` | shared/rust-bridge/codex-mobile-client/src/conversation.rs:158-168 | The boundary check finds exactly the cuts that leave valid text |
| `Utf8.ValidIffEncodes` | shared/rust-bridge/codex-mobile-client/src/conversation.rs:1539-1542 | Valid text is the UTF-8 encoding of some sequence of scalar values |
| `Utf8.EncodeOrdered` | shared/rust-bridge/codex-mobile-client/src/conversation.rs:1539-1542 | The encoding keeps the order of scalar values, as UTF-8 does |
| `ResumeCursor.CursorIsHighestSeen` | shared/rust-bridge/codex-mobile-client/src/alleycat.rs:188-207 | With lines that fit the buffer the cursor sent is the highest sequence number on any complete line of any earlier connection, none exactly when there is no positive one |
| `ResumeCursor.CursorExactIffLinesFit` | shared/rust-bridge/codex-mobile-client/src/alleycat.rs:829-858 | The tracker is the highest sequence number of the lines as sent, whatever lines mean, if and only if every line fits the buffer |
| `ResumeCursor.TailReadAsLine` | shared/rust-bridge/codex-mobile-client/src/alleycat.rs:829-858 | What follows the byte that overflows the buffer is read as a line of its own, whatever lines mean |
| `ResumeCursor.LongLineMisread` | shared/rust-bridge/codex-mobile-client/src/alleycat.rs:829-858 | One over-long line of bytes that carries no number and sets the cursor to 9 |
| `ResumeCursor.TrackedClosedForm` | shared/rust-bridge/codex-mobile-client/src/alleycat.rs:829-858 | The tracker after any session, over-long lines included |
| `ResumeCursor.ObserveClosedForm` | shared/rust-bridge/codex-mobile-client/src/alleycat.rs:829-858 | The observer's state after any bytes: the remnant of the unfinished line, and the highest number seen |
| `ResumeCursor.ChunkingIrrelevant` | shared/rust-bridge/codex-mobile-client/src/alleycat.rs:860-880 | However a stream is split into reads the observer ends in the same state |
| `ResumeCursor.InterleavedMaximum` | shared/rust-bridge/codex-mobile-client/src/alleycat.rs:829-858 | However the bytes of several streams on one tracker interleave, it is the highest number on any complete line of any of them |
| `ResumeCursor.InterleavingIrrelevant` | shared/rust-bridge/codex-mobile-client/src/alleycat.rs:829-858 | So the order in which the streams read does not matter |
| `ResumeCursor.BuffersApart` | shared/rust-bridge/codex-mobile-client/src/alleycat.rs:829-848 | Each buffer is what its own stream alone would have left in it |
| `ResumeCursor.ChunkRead` | shared/rust-bridge/codex-mobile-client/src/alleycat.rs:860-880 | One read of several bytes is the observer's, and changes no other buffer |
| `ResumeCursor.LinesSplit` | shared/rust-bridge/codex-mobile-client/src/alleycat.rs:829-843 | The lines it speaks of are the stream split at its newlines |
| `ResumeCursor.HighestSeqIsMaximum` | shared/rust-bridge/codex-mobile-client/src/alleycat.rs:850-858 | The highest number is a maximum |
| `ResumeCursor.AlleycatStream.ObserveReadBytes` | shared/rust-bridge/codex-mobile-client/src/alleycat.rs:829-848 | The byte loop, with its bounded buffer |
| `ResumeCursor.AlleycatReconnectTransport.Reconnect` | shared/rust-bridge/codex-mobile-client/src/alleycat.rs:188-207 | A reconnect sends the tracked number if positive and starts a stream with an empty buffer on the same tracker; a failed attempt is reported, and either way the tracker keeps its value |
| `Frames.FramesRoundTrip` | shared/rust-bridge/codex-mobile-client/src/alleycat.rs:695-745 | Reading back the concatenation of written frames gives the values and leaves the rest |
| `Frames.FramePrefixUnreadable` | shared/rust-bridge/codex-mobile-client/src/alleycat.rs:695-717 | No proper prefix of a frame reads as a frame |
| `Frames.FramesUnambiguous` | shared/rust-bridge/codex-mobile-client/src/alleycat.rs:695-745 | Two lists of values with the same bytes on the wire are the same list |
| `Frames.NetworkOrder` | shared/rust-bridge/codex-mobile-client/src/alleycat.rs:700-704 | The length is sent most significant byte first |
| `Frames.LimitIsOneMebibyte` | shared/rust-bridge/codex-mobile-client/src/alleycat.rs:705-709 | Frames over 1,048,576 bytes are refused, and no others for their length |
| `Frames.BadPayloadTaken` | shared/rust-bridge/codex-mobile-client/src/alleycat.rs:710-717 | A payload that is no JSON is an error after it was taken off the stream |
| `Frames.ByteStream.ReadJsonFrame` | shared/rust-bridge/codex-mobile-client/src/alleycat.rs:695-717 | One read, its errors and what it consumes |
| `Frames.ByteStream.WriteJsonFrame` | shared/rust-bridge/codex-mobile-client/src/alleycat.rs:719-745 | One write; a payload over the limit writes nothing |
| `RateLimiter.ElevenHoldAWindow` | services/push-proxy/src/rate-limiter.ts:12-20 | Whatever the clock does, of any 11 accepted requests some one comes at least 60,000 ms after an earlier one |
| `RateLimiter.ElevenSpan` | services/push-proxy/src/rate-limiter.ts:12-20 | On a clock that never steps back by more than d the first and last of 11 accepted requests are at least 60,000 ms less 2d apart |
| `RateLimiter.SpanBoundReached` | services/push-proxy/src/rate-limiter.ts:12-20 | A run for every such d on which they are no further apart |
| `RateLimiter.ElevenSpanAWindow` | services/push-proxy/src/rate-limiter.ts:12-20 | On a run with a non-decreasing clock any 11 accepted requests span at least 60,000 ms |
| `RateLimiter.RefusedExactly` | services/push-proxy/src/rate-limiter.ts:12-20 | A request whose reading is not behind an earlier one is refused exactly when 10 were accepted in the window before it |
| `RateLimiter.RefusalExactIffNotBehind` | services/push-proxy/src/rate-limiter.ts:12-20 | After all histories with a given latest reading the answer is right if and only if the reading at hand is not behind it |
| `RateLimiter.BehindWrong` | services/push-proxy/src/rate-limiter.ts:12-20 | For each reading that is behind, a run on which the answer is wrong |
| `RateLimiter.FieldIsRecentHistory` | services/push-proxy/src/rate-limiter.ts:14 | Pruning then never loses a relevant timestamp, however the clock moved before |
| `RateLimiter.ClockMustNotStepBack` | services/push-proxy/src/rate-limiter.ts:12-20 | A concrete run on which a clock that steps back lets a request through with more than ten accepted in its window |
| `RateLimiter.RateLimiter.Fetch` | services/push-proxy/src/rate-limiter.ts:12-20 | One request: prune, refuse or record |
| `PushRegistration.PushBudget` | services/push-proxy/src/durable-object.ts:53-85 | With a positive interval a registration can send n pushes over some run if and only if n is at most floor(ttl / interval) |
| `PushRegistration.NoBudgetWithoutInterval` | services/push-proxy/src/durable-object.ts:53-85 | Without one some run on a forward clock sends any number, unless the time to live is negative and none can be sent |
| `PushRegistration.SentAffordable` | services/push-proxy/src/durable-object.ts:53-85 | All pushes of a run fit in the time to live, one interval each |
| `PushRegistration.PacedStep` | services/push-proxy/src/durable-object.ts:53-85 | The next push is due one more interval after the last at the earliest, and every push falls within the time to live |
| `PushRegistration.PushRegistration.Put` | services/push-proxy/src/durable-object.ts:28-43 | Registering stores the record with its defaults and sets the alarm |
| `PushRegistration.Defaults` | services/push-proxy/src/durable-object.ts:29-40 | Without an interval or a time to live 30 and 7200 seconds are taken; the record starts with no pushes, and its alarm is one interval after the second reading |
| `PushRegistration.AlarmEnds` | services/push-proxy/src/durable-object.ts:53-85 | An alarm drops the record if and only if its time is over or the device is gone |
| `PushRegistration.CountIsSent` | services/push-proxy/src/durable-object.ts:53-85 | The stored count is that of the pushes sent |
| `PushRegistration.PushRegistration.OnAlarm` | services/push-proxy/src/durable-object.ts:53-85 | An alarm expires the record, drops it when the device is gone, or pushes and sets the next alarm |

## Left out

- Serde: the item, input, error and status types are read and written by an arbitrary lawful `Codec`; positional (array) forms of the raw structures and the types of metadata fields are one opaque condition each.
- Thread metadata: title, working directory, preview, model, timestamps and agent names are projected by trimming and defaults with nothing to prove beyond one function.
- Pending requests carry only their id and method; whether their parameters deserialise (and a user-input request has questions) is one opaque condition.
- The aliases of a number field, which are tried in order like those of a string field.
- Fields of an item that neither the diff nor the projection reads are one uninterpreted payload.
- ConversationState.NormalizeCommandStatus: the status of an interrupted command is rewritten on a value, where the source rewrites its own copy in place.
- Pointer walks: `navigate_to_path` hands out a mutable reference into the tree; here the edited parent is put back along the path, which does not capture aliasing.
- Duplicate ids: the model computes what the code does with them, but the agreement theorems ask for distinct ids.
- What becomes of the process after a panic: the call does not return, and the cache is as it was.
- The parse of a whole buffer as JSON that precedes the streaming extractor, and the widget built from its fields.
- Interleaving finer than a byte at the sequence tracker, whose update is one step, or within an alarm; a failed alarm is not retried.
- Sockets, the iroh transport, the JSON handshake, the push services and the HTTP routes around them.
