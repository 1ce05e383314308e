/**
  What a projection is, rule by rule, over the raw state it is read from: which requests are
  pending, which items and in what state, the turns' ids and statuses, the active turn, and
  the status of the thread.
 */
module ProjectedState {
  import opened Wrappers
  import opened Json
  import opened Thread
  import opened ConversationState
  import opened RawState
  import opened Diff
  import opened EventLog

  // ----- Pending requests -----

  /** The request is not marked completed, is spelled with that id and method, and its parameters are fitting. */
  ghost predicate Opens(c: Codec, r: DesktopRequest, entry: PendingRequest) {
    && r.completed != Some(true)
    && (r.id == Str(entry.id) || r.id == Number(entry.id))
    && r.requestMethod == entry.requestMethod
    && c.paramsFit(r.requestMethod, r.params)
  }

  predicate ApprovalMethod(m: string) {
    || m == "item/commandExecution/requestApproval"
    || m == "item/fileChange/requestApproval"
    || m == "item/permissions/requestApproval"
  }

  predicate UserInputMethod(m: string) {
    m == "item/tool/requestUserInput"
  }

  /** `at` are the places, in order, of all requests from `from` on that open one of `pending`, entry by entry. */
  ghost predicate PendingAt(
      c: Codec, requests: seq<DesktopRequest>, methods: set<string>, from: nat, pending: seq<PendingRequest>,
      at: seq<nat>) {
    && |at| == |pending|
    && (forall i, j :: 0 <= i < j < |at| ==> at[i] < at[j])
    && (forall i :: 0 <= i < |at| ==>
          && from <= at[i] < |requests| && pending[i].requestMethod in methods
          && Opens(c, requests[at[i]], pending[i]))
    && (forall k, entry: PendingRequest ::
          from <= k < |requests| && entry.requestMethod in methods && Opens(c, requests[k], entry) ==> k in at)
  }

  lemma PendingFirst(c: Codec, requests: seq<DesktopRequest>, methods: set<string>) returns (first: seq<PendingRequest>)
    requires requests != []
    ensures PendingRequests(c, requests, methods) == first + PendingRequests(c, requests[1..], methods)
    ensures |first| <= 1
    ensures first != [] ==> first[0].requestMethod in methods && Opens(c, requests[0], first[0])
    ensures first == [] ==>
              forall entry: PendingRequest :: entry.requestMethod in methods ==> !Opens(c, requests[0], entry)
  {
    var r := requests[0];
    var id := RequestId(r.id);
    first :=
      if r.completed != Some(true) && r.requestMethod in methods && id.Some? && c.paramsFit(r.requestMethod, r.params)
      then [PendingRequest(id.value, r.requestMethod)] else [];
  }

  lemma {:induction false} PendingPlaces(c: Codec, requests: seq<DesktopRequest>, methods: set<string>)
    returns (at: seq<nat>)
    ensures PendingAt(c, requests, methods, 0, PendingRequests(c, requests, methods), at)
  {
    hide PendingAt, Opens;
    if requests == [] {
      at := [];
      NothingPending(c, methods);
    } else {
      var rest := PendingPlaces(c, requests[1..], methods);
      var later := PendingRequests(c, requests[1..], methods);
      var moved := seq(|rest|, i requires 0 <= i < |rest| => rest[i] + 1);
      PlacesMoved(c, requests, methods, later, rest, moved);
      var first := PendingFirst(c, requests, methods);
      if first == [] {
        at := moved;
        assert first + later == later;
        PlacesNotFirst(c, requests, methods, later, moved);
      } else {
        at := [0] + moved;
        assert first == [first[0]];
        PlacesFirst(c, requests, methods, later, moved, first[0]);
      }
    }
  }

  lemma NothingPending(c: Codec, methods: set<string>)
    ensures PendingAt(c, [], methods, 0, PendingRequests(c, [], methods), [])
  {
  }

  lemma PlacesNotFirst(
      c: Codec, requests: seq<DesktopRequest>, methods: set<string>, pending: seq<PendingRequest>, at: seq<nat>)
    requires requests != [] && PendingAt(c, requests, methods, 1, pending, at)
    requires forall entry: PendingRequest :: entry.requestMethod in methods ==> !Opens(c, requests[0], entry)
    ensures PendingAt(c, requests, methods, 0, pending, at)
  {
    hide Opens;
  }

  lemma PlacesMoved(
      c: Codec, requests: seq<DesktopRequest>, methods: set<string>, pending: seq<PendingRequest>, at: seq<nat>,
      moved: seq<nat>)
    requires requests != [] && PendingAt(c, requests[1..], methods, 0, pending, at)
    requires |moved| == |at| && forall i :: 0 <= i < |at| ==> moved[i] == at[i] + 1
    ensures PendingAt(c, requests, methods, 1, pending, moved)
  {
    hide Opens;
    forall k, entry: PendingRequest |
      1 <= k < |requests| && entry.requestMethod in methods && Opens(c, requests[k], entry)
      ensures k in moved
    {
      assert requests[1..][k - 1] == requests[k];
      assert k - 1 in at;
      var i :| 0 <= i < |at| && at[i] == k - 1;
      assert moved[i] == k;
    }
  }

  lemma PlacesFirst(
      c: Codec, requests: seq<DesktopRequest>, methods: set<string>, pending: seq<PendingRequest>, at: seq<nat>,
      first: PendingRequest)
    requires requests != [] && PendingAt(c, requests, methods, 1, pending, at)
    requires first.requestMethod in methods && Opens(c, requests[0], first)
    ensures PendingAt(c, requests, methods, 0, [first] + pending, [0] + at)
  {
    hide Opens;
    var all := [0] + at;
    assert forall i :: 1 <= i < |all| ==> all[i] == at[i - 1] && ([first] + pending)[i] == pending[i - 1];
    forall k, entry: PendingRequest |
      0 <= k < |requests| && entry.requestMethod in methods && Opens(c, requests[k], entry)
      ensures k in all
    {
      if k > 0 {
        assert k in at;
        var i :| 0 <= i < |at| && at[i] == k;
        assert all[i + 1] == k;
      } else {
        assert all[0] == 0;
      }
    }
  }

  lemma OpensOnce(c: Codec, r: DesktopRequest, a: PendingRequest, b: PendingRequest)
    requires Opens(c, r, a) && Opens(c, r, b)
    ensures a == b
  {
  }

  lemma PlacedExactly(
      c: Codec, requests: seq<DesktopRequest>, methods: set<string>, pending: seq<PendingRequest>, at: seq<nat>,
      entry: PendingRequest)
    requires PendingAt(c, requests, methods, 0, pending, at)
    ensures entry in pending <==> entry.requestMethod in methods && exists r :: r in requests && Opens(c, r, entry)
  {
    hide Opens;
    if entry in pending {
      var i :| 0 <= i < |pending| && pending[i] == entry;
      assert requests[at[i]] in requests;
    } else if entry.requestMethod in methods {
      forall r | r in requests && Opens(c, r, entry) ensures false {
        var k :| 0 <= k < |requests| && requests[k] == r;
        var i :| 0 <= i < |at| && at[i] == k;
        OpensOnce(c, r, entry, pending[i]);
      }
    }
  }

  /** The raw state that a projection is read from. */
  function StateOf(c: Codec, raw: Value): DesktopState
    requires DecodeState(c, raw).Some?
  {
    DecodeState(c, raw).value
  }

  /**
    A request is pending if and only if it is not marked completed, its method is one of the
    three for approvals (or the one for user input), it has an id, and its parameters fit.
   */
  lemma {:induction false} PendingExactly(c: Codec, id: string, raw: Value, entry: PendingRequest)
    requires ProjectState(c, id, raw).Ok?
    ensures entry in ProjectState(c, id, raw).value.pendingApprovals <==>
              ApprovalMethod(entry.requestMethod) && exists r :: r in StateOf(c, raw).requests && Opens(c, r, entry)
    ensures entry in ProjectState(c, id, raw).value.pendingUserInputs <==>
              UserInputMethod(entry.requestMethod) && exists r :: r in StateOf(c, raw).requests && Opens(c, r, entry)
  {
    hide DecodeState, ProjectTurns, PendingRequests, ResolveStatus, ActiveTurnId, PendingAt, Opens;
    var requests := StateOf(c, raw).requests;
    var approvals, inputs := {COMMAND_APPROVAL, FILE_CHANGE_APPROVAL, PERMISSIONS_APPROVAL}, {USER_INPUT};
    var a := PendingPlaces(c, requests, approvals);
    var b := PendingPlaces(c, requests, inputs);
    PlacedExactly(c, requests, approvals, PendingRequests(c, requests, approvals), a, entry);
    PlacedExactly(c, requests, inputs, PendingRequests(c, requests, inputs), b, entry);
  }

  /** And they are listed in the order of the requests, one entry for each. */
  lemma {:induction false} PendingInOrder(c: Codec, id: string, raw: Value)
    returns (approvals: seq<nat>, inputs: seq<nat>)
    requires ProjectState(c, id, raw).Ok?
    ensures var p, requests := ProjectState(c, id, raw).value, StateOf(c, raw).requests;
            && PendingAt(c, requests,
                         {"item/commandExecution/requestApproval", "item/fileChange/requestApproval",
                          "item/permissions/requestApproval"}, 0, p.pendingApprovals, approvals)
            && PendingAt(c, requests, {"item/tool/requestUserInput"}, 0, p.pendingUserInputs, inputs)
  {
    hide DecodeState, ProjectTurns, PendingRequests, ResolveStatus, ActiveTurnId, PendingAt;
    var requests := StateOf(c, raw).requests;
    approvals := PendingPlaces(c, requests, {COMMAND_APPROVAL, FILE_CHANGE_APPROVAL, PERMISSIONS_APPROVAL});
    inputs := PendingPlaces(c, requests, {USER_INPUT});
  }

  /** A request that was open, all of whose mentions are now marked completed, is announced as resolved. */
  lemma {:induction false} CompletedIsResolved(
      c: Codec, id: string, before: Value, after: Value, snaps: Snapshots, was: DesktopRequest, entry: PendingRequest)
    requires ProjectState(c, id, before).Ok? && ProjectState(c, id, after).Ok?
    requires was in StateOf(c, before).requests && Opens(c, was, entry)
    requires ApprovalMethod(entry.requestMethod) || UserInputMethod(entry.requestMethod)
    requires forall r :: r in StateOf(c, after).requests && (r.id == Str(entry.id) || r.id == Number(entry.id)) ==>
               r.completed == Some(true)
    ensures ServerRequestResolved(entry.id) in
              DiffEvents(ProjectState(c, id, before).value, ProjectState(c, id, after).value, snaps)
  {
    hide ProjectState, DiffEvents, ApprovalMethod, UserInputMethod;
    var prev, next := ProjectState(c, id, before).value, ProjectState(c, id, after).value;
    ResolvedExactly(prev, next, snaps, entry.id);
    PendingExactly(c, id, before, entry);
    assert entry in prev.pendingApprovals + prev.pendingUserInputs;
    forall r | r in next.pendingApprovals + next.pendingUserInputs ensures r.id != entry.id {
      PendingExactly(c, id, after, r);
    }
  }

  // ----- Items -----

  /** The sixteen types of item that are shown. */
  predicate ShownType(t: string) {
    || t == "userMessage" || t == "hookPrompt" || t == "agentMessage" || t == "plan" || t == "reasoning"
    || t == "commandExecution" || t == "fileChange" || t == "mcpToolCall" || t == "dynamicToolCall"
    || t == "collabAgentToolCall" || t == "webSearch" || t == "imageView" || t == "imageGeneration"
    || t == "enteredReviewMode" || t == "exitedReviewMode" || t == "contextCompaction"
  }

  lemma ShownTypes(t: string)
    ensures SupportedType(t) <==> ShownType(t)
  {
  }

  /** An item without a type, or of another type, is passed over. */
  lemma OthersPassedOver(c: Codec, turn: DesktopTurn, raw: Value)
    requires raw.Object? && "type" in raw.fields && raw.fields["type"].Str? ==> !ShownType(raw.fields["type"].s)
    ensures ProjectItem(c, turn, raw) == Ok(None)
  {
    hide SupportedType, ShownType;
    if StringAt(raw, "type").Some? {
      ShownTypes(raw.fields["type"].s);
    }
  }

  /** One that is no command is read as it stands; a message that repeats the turn's input is dropped. */
  lemma {:induction false} ReadAsItStands(c: Codec, turn: DesktopTurn, raw: Value)
    requires raw.Object? && "type" in raw.fields && raw.fields["type"].Str?
    requires ShownType(raw.fields["type"].s) && raw.fields["type"].s != "commandExecution"
    ensures ProjectItem(c, turn, raw) ==
            match c.decodeItem(raw)
            case None => Err(BadTurnItem(raw.fields["type"].s))
            case Some(item) =>
              if item.UserMessage? && item.content == turn.input then Ok(None) else Ok(Some(item))
  {
    hide SupportedType, ShownType, NormalizeCommandStatus;
    ShownTypes(raw.fields["type"].s);
  }

  /** Reading a command with the status overwritten changes that status and nothing else. */
  ghost predicate SettlesCommands(c: Codec) {
    forall v :: c.decodeItem(v).Some? && c.decodeItem(v).value.CommandExecution? && v.Object? ==>
      c.decodeItem(Object(v.fields["status" := Str("failed")])) == Some(c.decodeItem(v).value.(status := CommandFailed))
  }

  /**
    A command keeps its status unless it is in progress in an interrupted turn, or is one of
    the interrupted commands itself; then it has failed.
   */
  lemma {:induction false} CommandStatusExactly(c: Codec, turn: DesktopTurn, raw: Value, item: ThreadItem)
    requires ReadsCommands(c) && SettlesCommands(c)
    requires c.decodeItem(raw) == Some(item) && item.CommandExecution?
    ensures ProjectItem(c, turn, raw) ==
            Ok(Some(item.(status :=
              if item.status.CommandInProgress?
                 && (turn.status == Some("interrupted") || item.id in turn.interruptedIds)
              then CommandFailed else item.status)))
  {
    hide SupportedType;
    assert ReadsCommand(c, raw);
    ShownTypes("commandExecution");
  }

  lemma SettledEither(raw: Value, status: Option<string>, ids: seq<string>)
    requires raw.Object?
    ensures NormalizeCommandStatus(raw, status, ids) in {raw, Object(raw.fields["status" := Str("failed")])}
  {
  }

  /** A command that cannot be read fails the projection. */
  lemma {:induction false} UnreadableCommand(c: Codec, turn: DesktopTurn, raw: Value)
    requires StringAt(raw, "type") == Some("commandExecution")
    requires c.decodeItem(raw).None? && c.decodeItem(Object(raw.fields["status" := Str("failed")])).None?
    ensures ProjectItem(c, turn, raw) == Err(BadTurnItem("commandExecution"))
  {
    hide SupportedType, NormalizeCommandStatus;
    ShownTypes("commandExecution");
    SettledEither(raw, turn.status, turn.interruptedIds);
  }

  /** Items are read one by one and kept in order; the first that fails is the error. */
  lemma {:induction false} ItemsConcat(c: Codec, turn: DesktopTurn, a: seq<Value>, b: seq<Value>)
    ensures ProjectItems(c, turn, a + b) ==
            match ProjectItems(c, turn, a)
            case Err(e) => Err(e)
            case Ok(xs) =>
              match ProjectItems(c, turn, b)
              case Err(e) => Err(e)
              case Ok(ys) => Ok(xs + ys)
  {
    hide ProjectItem;
    if a == [] {
      assert a + b == b;
      assert forall ys: seq<ThreadItem> :: [] + ys == ys;
    } else {
      assert (a + b)[1..] == a[1..] + b;
      ItemsConcat(c, turn, a[1..], b);
      if ProjectItem(c, turn, a[0]).Ok? && ProjectItems(c, turn, a[1..]).Ok? && ProjectItems(c, turn, b).Ok? {
        var one := ProjectItem(c, turn, a[0]).value;
        var first := if one.Some? then [one.value] else [];
        assert first + (ProjectItems(c, turn, a[1..]).value + ProjectItems(c, turn, b).value)
            == first + ProjectItems(c, turn, a[1..]).value + ProjectItems(c, turn, b).value;
      }
    }
  }

  lemma {:induction false} OneItem(c: Codec, turn: DesktopTurn, raw: Value)
    ensures ProjectItems(c, turn, [raw]) ==
            match ProjectItem(c, turn, raw)
            case Err(e) => Err(e)
            case Ok(item) => Ok(if item.Some? then [item.value] else [])
  {
    hide ProjectItem;
    assert [raw][1..] == [];
    assert ProjectItems(c, turn, []) == Ok([]);
    assert forall first: seq<ThreadItem> :: first + [] == first;
  }

  // ----- Turns -----

  /** The number that decimal digits spell. */
  ghost function Numeral(s: string): int {
    if s == "" then 0 else 10 * Numeral(s[..|s| - 1]) + (s[|s| - 1] as int - '0' as int)
  }

  predicate Digits(s: string) {
    forall ch :: ch in s ==> '0' <= ch <= '9'
  }

  lemma DigitSpells(n: nat)
    requires n < 10
    ensures Decimal(n) == ['0' + n as char] && Numeral(Decimal(n)) == n && Digits(Decimal(n))
  {
    assert Decimal(n)[..0] == "";
  }

  lemma DigitAppended(s: string, d: nat)
    requires d < 10 && Digits(s)
    ensures Numeral(s + ['0' + d as char]) == 10 * Numeral(s) + d && Digits(s + ['0' + d as char])
  {
    assert (s + ['0' + d as char])[..|s|] == s;
  }

  lemma DecimalSplits(n: nat)
    requires n >= 10
    ensures Decimal(n) == Decimal(n / 10) + ['0' + (n % 10) as char]
  {
  }

  /** Decimal digits without a leading zero, which spell the number. */
  lemma {:induction false} DecimalSpells(n: nat)
    ensures Numeral(Decimal(n)) == n && Digits(Decimal(n))
    ensures Decimal(n) != "" && (Decimal(n)[0] == '0' ==> n == 0)
  {
    hide Decimal, Numeral, Digits;
    if n < 10 {
      DigitSpells(n);
    } else {
      DecimalSpells(n / 10);
      DecimalSplits(n);
      DigitAppended(Decimal(n / 10), n % 10);
    }
  }

  /** A turn keeps its own id, or is given one that names its place. */
  lemma TurnIds(turn: DesktopTurn, index: nat)
    ensures turn.turnId.Some? ==> TurnId(turn, index) == turn.turnId.value
    ensures turn.turnId.None? ==> "ipc-turn-" <= TurnId(turn, index) && Numeral(TurnId(turn, index)[9..]) == index
  {
    if turn.turnId.None? {
      DecimalSpells(index);
      assert TurnId(turn, index)[9..] == Decimal(index);
    }
  }

  /** So no two turns are given the same. */
  lemma SynthesizedApart(a: DesktopTurn, i: nat, b: DesktopTurn, j: nat)
    requires a.turnId.None? && b.turnId.None? && TurnId(a, i) == TurnId(b, j)
    ensures i == j
  {
    TurnIds(a, i);
    TurnIds(b, j);
  }

  /** The four statuses by name; any other, or none, is read as completed. */
  lemma TurnStatusNames(s: string)
    ensures ParseTurnStatus(Some("completed")) == ParseTurnStatus(None) == Completed
    ensures ParseTurnStatus(Some("interrupted")) == Interrupted
    ensures ParseTurnStatus(Some("failed")) == Failed && ParseTurnStatus(Some("inProgress")) == InProgress
    ensures s != "interrupted" && s != "failed" && s != "inProgress" ==> ParseTurnStatus(Some(s)) == Completed
  {
  }

  /** A turn in full: its id, status and error, its input as a first message if it has any, and then its items. */
  lemma {:induction false} TurnIs(c: Codec, turn: DesktopTurn, index: nat)
    ensures match ProjectTurnAt(c, turn, index)
            case Err(e) => ProjectItems(c, turn, turn.items) == Err(e)
            case Ok(t) =>
              && t.id == TurnId(turn, index) && t.status == ParseTurnStatus(turn.status) && t.error == turn.error
              && if turn.input == [] then ProjectItems(c, turn, turn.items) == Ok(t.items)
                 else
                   && t.items != [] && t.items[0] == UserMessage(t.id + ":input", turn.input)
                   && ProjectItems(c, turn, turn.items) == Ok(t.items[1..])
  {
    hide ProjectItems, ParseTurnStatus, TurnId;
    if ProjectTurnAt(c, turn, index).Ok? {
      var t := ProjectTurnAt(c, turn, index).value;
      var items := ProjectItems(c, turn, turn.items).value;
      if turn.input == [] {
        assert [] + items == items;
      } else {
        assert t.items[1..] == items;
      }
    }
  }

  /** Turns are projected each in its place; the first that fails is the error. */
  lemma {:induction false} FirstTurnFails(c: Codec, turns: seq<DesktopTurn>, index: nat, k: nat)
    requires k < |turns| && ProjectTurnAt(c, turns[k], index + k).Err?
    requires forall j :: 0 <= j < k ==> ProjectTurnAt(c, turns[j], index + j).Ok?
    ensures ProjectTurns(c, turns, index) == Err(ProjectTurnAt(c, turns[k], index + k).error)
  {
    hide ProjectTurnAt;
    if k > 0 {
      assert ProjectTurnAt(c, turns[0], index + 0).Ok?;
      forall j | 0 <= j < k - 1 ensures ProjectTurnAt(c, turns[1..][j], index + 1 + j).Ok? {
        assert turns[1..][j] == turns[j + 1] && ProjectTurnAt(c, turns[j + 1], index + (j + 1)).Ok?;
      }
      FirstTurnFails(c, turns[1..], index + 1, k - 1);
    }
  }

  /** A state projects exactly if it is read and each of its turns projects. */
  lemma {:induction false} ProjectsExactly(c: Codec, id: string, raw: Value)
    ensures DecodeState(c, raw).None? ==> ProjectState(c, id, raw) == Err(BadConversationState)
    ensures DecodeState(c, raw).Some? ==>
              var turns := StateOf(c, raw).turns;
              && (ProjectState(c, id, raw).Ok? <==> forall k :: 0 <= k < |turns| ==> ProjectTurnAt(c, turns[k], k).Ok?)
              && (ProjectState(c, id, raw).Ok? ==>
                    var thread := ProjectState(c, id, raw).value.thread;
                    && thread.id == id && |thread.turns| == |turns|
                    && forall k :: 0 <= k < |turns| ==> ProjectTurnAt(c, turns[k], k) == Ok(thread.turns[k]))
  {
    hide DecodeState, ProjectTurnAt, ProjectTurns, PendingRequests, ResolveStatus, ActiveTurnId;
    if DecodeState(c, raw).Some? {
      var turns := StateOf(c, raw).turns;
      if ProjectTurns(c, turns, 0).Ok? {
        forall k | 0 <= k < |turns| ensures ProjectTurnAt(c, turns[k], k) == Ok(ProjectTurns(c, turns, 0).value[k]) {
          ProjectedTurnAt(c, turns, 0, k);
        }
      } else {
        var k := SomeTurnFails(c, turns, 0);
        assert ProjectTurnAt(c, turns[k], 0 + k).Err?;
      }
    }
  }

  lemma {:induction false} SomeTurnFails(c: Codec, turns: seq<DesktopTurn>, index: nat) returns (k: nat)
    requires ProjectTurns(c, turns, index).Err?
    ensures k < |turns| && ProjectTurnAt(c, turns[k], index + k).Err?
  {
    hide ProjectTurnAt;
    if ProjectTurnAt(c, turns[0], index).Err? {
      k := 0;
    } else {
      k := SomeTurnFails(c, turns[1..], index + 1);
      k := k + 1;
    }
  }

  // ----- The active turn and the status -----

  /** The last turn in progress, at `k`. */
  ghost predicate LastRunning(turns: seq<DesktopTurn>, k: nat) {
    && k < |turns| && turns[k].status == Some("inProgress")
    && forall j :: k < j < |turns| ==> turns[j].status != Some("inProgress")
  }

  /** The active turn is the last in progress, by its own id; there is none if no turn is in progress. */
  lemma {:induction false} ActiveExactly(turns: seq<DesktopTurn>)
    ensures forall k: nat :: LastRunning(turns, k) ==> ActiveTurnId(turns) == turns[k].turnId
    ensures (forall t :: t in turns ==> t.status != Some("inProgress")) ==> ActiveTurnId(turns).None?
  {
    if turns != [] {
      var front, last := turns[..|turns| - 1], turns[|turns| - 1];
      assert last in turns;
      if last.status != Some("inProgress") {
        ActiveExactly(front);
        forall k: nat | LastRunning(turns, k) ensures LastRunning(front, k) && front[k] == turns[k] {
        }
      }
    }
  }

  /** The flag is added behind if it is called for and not there yet. */
  function Raised(flags: seq<ActiveFlag>, flag: ActiveFlag, called: bool): seq<ActiveFlag> {
    if called && flag !in flags then flags + [flag] else flags
  }

  /**
    The status of the thread: its runtime status if it has one, where an active one is also
    flagged with what is pending; and otherwise not loaded, active, failed or idle, in this order.
   */
  lemma {:induction false} StatusRules(c: Codec, id: string, raw: Value)
    requires ProjectState(c, id, raw).Ok?
    ensures var p, state := ProjectState(c, id, raw).value, StateOf(c, raw);
            var approving, asking := p.pendingApprovals != [], p.pendingUserInputs != [];
            && p.activeTurnId == ActiveTurnId(state.turns)
            && match state.runtimeStatus
               case Some(Active(flags)) =>
                 p.thread.status ==
                 Active(Raised(Raised(flags, WaitingOnApproval, approving), WaitingOnUserInput, asking))
               case Some(status) => p.thread.status == status
               case None =>
                 if state.resumeState == Some("needs_resume") && state.turns == [] then p.thread.status == NotLoaded
                 else if p.activeTurnId.Some? || approving || asking then
                   p.thread.status ==
                   Active(Raised(Raised([], WaitingOnApproval, approving), WaitingOnUserInput, asking))
                 else if exists t :: t in state.turns && t.status == Some("failed") then p.thread.status == SystemError
                 else p.thread.status == Idle
  {
    hide DecodeState, ProjectTurns, PendingRequests, ActiveTurnId;
    var p, state := ProjectState(c, id, raw).value, StateOf(c, raw);
    if state.runtimeStatus.Some? && state.runtimeStatus.value.Active? {
      MergeBoth(state.runtimeStatus.value.flags, p.pendingApprovals, p.pendingUserInputs);
    }
  }

  lemma MergeBoth(flags: seq<ActiveFlag>, approvals: seq<PendingRequest>, inputs: seq<PendingRequest>)
    ensures MergeFlags(flags, DerivedFlags(approvals, inputs)) ==
            Raised(Raised(flags, WaitingOnApproval, approvals != []), WaitingOnUserInput, inputs != [])
  {
    var derived := DerivedFlags(approvals, inputs);
    if derived != [] {
      var one := if derived[0] in flags then flags else flags + [derived[0]];
      var rest := derived[1..];
      assert MergeFlags(flags, derived) == MergeFlags(one, rest);
      if rest != [] {
        assert rest[1..] == [];
        assert MergeFlags(one, rest) == if rest[0] in one then one else one + [rest[0]];
      }
    }
  }

  // ----- Seeding -----

  /** Of the items those of the sixteen types are seeded, in order. */
  lemma {:induction false} SeededItems(a: seq<ThreadItem>, b: seq<ThreadItem>, item: ThreadItem)
    ensures SupportedItems(a + b) == SupportedItems(a) + SupportedItems(b)
    ensures SupportedItems([item]) == if ShownType(TypeName(item)) then [item] else []
  {
    hide SupportedType, ShownType, TypeName;
    ShownTypes(TypeName(item));
    assert [item][1..] == [] && SupportedItems([]) == [];
    if a == [] {
      assert a + b == b;
    } else {
      assert (a + b)[1..] == a[1..] + b;
      SeededItems(a[1..], b, item);
    }
  }

  /** A turn is seeded as the desktop would write it, a leading message as its input. */
  lemma {:induction false} SeedIsWritten(c: Codec, turn: Turn, lead: seq<ThreadItem>, others: seq<ThreadItem>)
    requires turn.items == lead + others && |lead| <= 1
    requires if lead == [] then others == [] || !others[0].UserMessage? else lead[0].UserMessage?
    ensures SeedTurn(c, turn) ==
            Object(TurnFields(c,
              DesktopTurn(Some(turn.id), Some(SerializeTurnStatus(turn.status)), turn.error,
                          Encoded(c.encodeItem, SupportedItems(others)),
                          if lead == [] then [] else lead[0].content, []), false))
  {
    hide SupportedItems;
    assert lead == [] ==> turn.items == others;
    assert lead != [] ==> turn.items[1..] == others;
  }
}
