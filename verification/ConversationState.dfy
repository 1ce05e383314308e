/**
  Projecting the raw conversation JSON to a typed thread, and seeding raw JSON from a thread:
  conversation_state.rs. The leaf types of the upstream protocol are read and written by an
  arbitrary `Codec`; the structure around them is modelled field by field.
 */
module ConversationState {
  import opened Wrappers
  import opened Json
  import opened Thread

  datatype Codec = Codec(
    decodeItem: Value -> Option<ThreadItem>,
    encodeItem: ThreadItem -> Value,
    decodeInput: Value -> Option<UserInput>,
    encodeInput: UserInput -> Value,
    decodeError: Value -> Option<TurnError>,
    encodeError: TurnError -> Value,
    decodeStatus: Value -> Option<ThreadStatus>,
    encodeStatus: ThreadStatus -> Value,
    // Do the state's other fields (title, cwd, source, ...) have the types they should?
    othersFit: map<string, Value> -> bool,
    // The other fields written by seeding.
    seedOthers: Thread -> map<string, Value>,
    // Do a request's parameters deserialise for its method?
    paramsFit: (string, Value) -> bool)

  datatype ProjectionError = BadConversationState | BadTurnItem(itemType: string)

  // ----- The raw structure -----

  datatype DesktopTurn = DesktopTurn(
    turnId: Option<string>,
    status: Option<string>,
    error: Option<TurnError>,
    items: seq<Value>,
    input: seq<UserInput>,
    interruptedIds: seq<string>)

  datatype DesktopRequest = DesktopRequest(id: Value, requestMethod: string, params: Value, completed: Option<bool>)

  datatype DesktopState = DesktopState(
    turns: seq<DesktopTurn>,
    runtimeStatus: Option<ThreadStatus>,
    resumeState: Option<string>,
    requests: seq<DesktopRequest>)

  type Fields = map<string, Value>

  function DecodeList<T>(f: Value -> Option<T>, xs: seq<Value>): (r: Option<seq<T>>)
    ensures r.Some? ==> |r.value| == |xs| && forall i :: 0 <= i < |xs| ==> f(xs[i]) == Some(r.value[i])
  {
    if xs == [] then Some([])
    else
      var head, tail := f(xs[0]), DecodeList(f, xs[1..]);
      if head.Some? && tail.Some? then Some([head.value] + tail.value) else None
  }

  /** A list field: absent means empty, null is an error. */
  function ListField<T>(f: Value -> Option<T>, o: Fields, key: string): Option<seq<T>> {
    if key !in o then Some([])
    else if o[key].Array? then DecodeList(f, o[key].items)
    else None
  }

  /** An optional field: absent and null both mean none. */
  function OptionalField<T>(f: Value -> Option<T>, o: Fields, key: string): Option<Option<T>> {
    if key !in o || o[key].Null? then Some(None)
    else
      match f(o[key])
      case None => None
      case Some(t) => Some(Some(t))
  }

  function AsString(v: Value): Option<string> {
    if v.Str? then Some(v.s) else None
  }

  function AsBool(v: Value): Option<bool> {
    if v.Bool? then Some(v.b) else None
  }

  function AsValue(v: Value): Option<Value> {
    Some(v)
  }

  function DecodeInputs(c: Codec, o: Fields): Option<seq<UserInput>> {
    if "params" !in o then Some([])
    else if !o["params"].Object? then None
    else ListField(c.decodeInput, o["params"].fields, "input")
  }

  function DecodeTurn(c: Codec, v: Value): Option<DesktopTurn> {
    if !v.Object? then None
    else
      var turnId := OptionalField(AsString, v.fields, "turnId");
      var status := OptionalField(AsString, v.fields, "status");
      var error := OptionalField(c.decodeError, v.fields, "error");
      var items := ListField(AsValue, v.fields, "items");
      var input := DecodeInputs(c, v.fields);
      var ids := ListField(AsString, v.fields, "interruptedCommandExecutionItemIds");
      if turnId.None? || status.None? || error.None? || items.None? || input.None? || ids.None? then None
      else Some(DesktopTurn(turnId.value, status.value, error.value, items.value, input.value, ids.value))
  }

  function DecodeRequest(v: Value): Option<DesktopRequest> {
    if !v.Object? then None
    else
      var o := v.fields;
      var completed := OptionalField(AsBool, o, "completed");
      if completed.None? || ("method" in o && !o["method"].Str?) then None
      else
        Some(DesktopRequest(
          if "id" in o then o["id"] else Null,
          if "method" in o then o["method"].s else "",
          if "params" in o then o["params"] else Null,
          completed.value))
  }

  function DecodeState(c: Codec, v: Value): Option<DesktopState> {
    if !v.Object? || !c.othersFit(v.fields) then None
    else
      var turns := ListField(t => DecodeTurn(c, t), v.fields, "turns");
      var status := OptionalField(c.decodeStatus, v.fields, "threadRuntimeStatus");
      var resume := OptionalField(AsString, v.fields, "resumeState");
      var requests := ListField(DecodeRequest, v.fields, "requests");
      if turns.None? || status.None? || resume.None? || requests.None? then None
      else Some(DesktopState(turns.value, status.value, resume.value, requests.value))
  }

  // ----- Projecting a turn -----

  predicate SupportedType(itemType: string) {
    itemType in {
      "userMessage", "hookPrompt", "agentMessage", "plan", "reasoning", "commandExecution",
      "fileChange", "mcpToolCall", "dynamicToolCall", "collabAgentToolCall", "webSearch",
      "imageView", "imageGeneration", "enteredReviewMode", "exitedReviewMode", "contextCompaction"
    }
  }

  function Decimal(n: nat): string {
    var digit := ['0' + (n % 10) as char];
    if n < 10 then digit else Decimal(n / 10) + digit
  }

  /** `value.get(key).and_then(as_str)`. */
  function StringAt(v: Value, key: string): Option<string> {
    if v.Object? && key in v.fields then AsString(v.fields[key]) else None
  }

  function NormalizeCommandStatus(raw: Value, turnStatus: Option<string>, interruptedIds: seq<string>): Value {
    var id := StringAt(raw, "id");
    var interrupted := turnStatus == Some("interrupted") || (id.Some? && id.value in interruptedIds);
    if interrupted && StringAt(raw, "status") == Some("inProgress")
    then Object(raw.fields["status" := Str("failed")])
    else raw
  }

  /** What one raw item becomes: nothing, an item, or an error. */
  function ProjectItem(c: Codec, turn: DesktopTurn, raw: Value): Result<Option<ThreadItem>, ProjectionError> {
    var itemType := StringAt(raw, "type");
    if itemType.None? || !SupportedType(itemType.value) then Ok(None)
    else
      var settled := if itemType.value == "commandExecution"
                     then NormalizeCommandStatus(raw, turn.status, turn.interruptedIds) else raw;
      match c.decodeItem(settled)
      case None => Err(BadTurnItem(itemType.value))
      case Some(item) =>
        if item.UserMessage? && item.content == turn.input then Ok(None) else Ok(Some(item))
  }

  function ProjectItems(c: Codec, turn: DesktopTurn, raws: seq<Value>): Result<seq<ThreadItem>, ProjectionError> {
    if raws == [] then Ok([])
    else
      match ProjectItem(c, turn, raws[0])
      case Err(e) => Err(e)
      case Ok(first) =>
        match ProjectItems(c, turn, raws[1..])
        case Err(e) => Err(e)
        case Ok(others) => Ok((if first.Some? then [first.value] else []) + others)
  }

  function TurnId(turn: DesktopTurn, index: nat): string {
    if turn.turnId.Some? then turn.turnId.value else "ipc-turn-" + Decimal(index)
  }

  function InputItems(turnId: string, input: seq<UserInput>): seq<ThreadItem> {
    if input == [] then [] else [UserMessage(turnId + ":input", input)]
  }

  function ParseTurnStatus(s: Option<string>): TurnStatus {
    if s == Some("interrupted") then Interrupted
    else if s == Some("failed") then Failed
    else if s == Some("inProgress") then InProgress
    else Completed
  }

  function ProjectTurnAt(c: Codec, turn: DesktopTurn, index: nat): Result<Turn, ProjectionError> {
    match ProjectItems(c, turn, turn.items)
    case Err(e) => Err(e)
    case Ok(items) =>
      var id := TurnId(turn, index);
      Ok(Turn(id, InputItems(id, turn.input) + items, ParseTurnStatus(turn.status), turn.error))
  }

  method ProjectTurn(c: Codec, turn: DesktopTurn, index: nat) returns (r: Result<Turn, ProjectionError>)
    ensures r == ProjectTurnAt(c, turn, index)
  {
    var turnId := TurnId(turn, index);
    var items := InputItems(turnId, turn.input);
    var i := 0;
    while i < |turn.items|
      invariant 0 <= i <= |turn.items|
      invariant match ProjectItems(c, turn, turn.items[i..])
                case Err(e) => ProjectItems(c, turn, turn.items) == Err(e)
                case Ok(others) =>
                  ProjectItems(c, turn, turn.items).Ok?
                  && items + others == InputItems(turnId, turn.input) + ProjectItems(c, turn, turn.items).value
    {
      hide ProjectItem;
      assert turn.items[i..][1..] == turn.items[i + 1..];
      var one := ProjectItem(c, turn, turn.items[i]);
      if one.Err? {
        return Err(one.error);
      }
      if one.value.Some? {
        items := items + [one.value.value];
      }
      i := i + 1;
    }
    assert turn.items[i..] == [] && ProjectItems(c, turn, []) == Ok([]) && items + [] == items;
    return Ok(Turn(turnId, items, ParseTurnStatus(turn.status), turn.error));
  }

  function ProjectTurns(c: Codec, turns: seq<DesktopTurn>, index: nat): (r: Result<seq<Turn>, ProjectionError>)
    ensures r.Ok? ==> |r.value| == |turns|
  {
    if turns == [] then Ok([])
    else
      match ProjectTurnAt(c, turns[0], index)
      case Err(e) => Err(e)
      case Ok(first) =>
        match ProjectTurns(c, turns[1..], index + 1)
        case Err(e) => Err(e)
        case Ok(others) => Ok([first] + others)
  }

  // ----- Projecting the rest -----

  const COMMAND_APPROVAL := "item/commandExecution/requestApproval"
  const FILE_CHANGE_APPROVAL := "item/fileChange/requestApproval"
  const PERMISSIONS_APPROVAL := "item/permissions/requestApproval"
  const USER_INPUT := "item/tool/requestUserInput"

  function RequestId(v: Value): Option<string> {
    match v
    case Str(s) => Some(s)
    case Number(n) => Some(n)
    case _ => None
  }

  /** The open requests whose method is one of `methods`. */
  function PendingRequests(c: Codec, requests: seq<DesktopRequest>, methods: set<string>): seq<PendingRequest> {
    if requests == [] then []
    else
      var r := requests[0];
      var id := RequestId(r.id);
      (if r.completed != Some(true) && r.requestMethod in methods && id.Some? && c.paramsFit(r.requestMethod, r.params)
       then [PendingRequest(id.value, r.requestMethod)] else [])
      + PendingRequests(c, requests[1..], methods)
  }

  function DerivedFlags(approvals: seq<PendingRequest>, inputs: seq<PendingRequest>): seq<ActiveFlag> {
    (if approvals == [] then [] else [WaitingOnApproval]) + (if inputs == [] then [] else [WaitingOnUserInput])
  }

  function MergeFlags(existing: seq<ActiveFlag>, derived: seq<ActiveFlag>): seq<ActiveFlag>
    decreases |derived|
  {
    if derived == [] then existing
    else MergeFlags(if derived[0] in existing then existing else existing + [derived[0]], derived[1..])
  }

  method MergeActiveFlags(existing: seq<ActiveFlag>, derived: seq<ActiveFlag>) returns (merged: seq<ActiveFlag>)
    ensures merged == MergeFlags(existing, derived)
    ensures forall f :: f in merged <==> f in existing || f in derived
  {
    merged := existing;
    var i := 0;
    while i < |derived|
      invariant 0 <= i <= |derived|
      invariant MergeFlags(merged, derived[i..]) == MergeFlags(existing, derived)
      invariant forall f :: f in merged <==> f in existing || f in derived[..i]
    {
      assert derived[i..][1..] == derived[i + 1..];
      if derived[i] !in merged {
        merged := merged + [derived[i]];
      }
      i := i + 1;
    }
  }

  /** The id of the last turn in progress, if that turn has one of its own. */
  function ActiveTurnId(turns: seq<DesktopTurn>): Option<string> {
    if turns == [] then None
    else
      var last := turns[|turns| - 1];
      if last.status == Some("inProgress") then last.turnId else ActiveTurnId(turns[..|turns| - 1])
  }

  function DeriveStatus(state: DesktopState, flags: seq<ActiveFlag>): ThreadStatus {
    if state.resumeState == Some("needs_resume") && state.turns == [] then NotLoaded
    else if ActiveTurnId(state.turns).Some? || flags != [] then Active(flags)
    else if exists t :: t in state.turns && t.status == Some("failed") then SystemError
    else Idle
  }

  function ResolveStatus(state: DesktopState, flags: seq<ActiveFlag>): ThreadStatus {
    match state.runtimeStatus
    case Some(Active(existing)) => Active(MergeFlags(existing, flags))
    case Some(status) => status
    case None => DeriveStatus(state, flags)
  }

  function ProjectState(c: Codec, id: string, raw: Value): Result<Projection, ProjectionError> {
    match DecodeState(c, raw)
    case None => Err(BadConversationState)
    case Some(state) =>
      match ProjectTurns(c, state.turns, 0)
      case Err(e) => Err(e)
      case Ok(turns) =>
        var approvals := PendingRequests(c, state.requests,
                                         {COMMAND_APPROVAL, FILE_CHANGE_APPROVAL, PERMISSIONS_APPROVAL});
        var inputs := PendingRequests(c, state.requests, {USER_INPUT});
        var status := ResolveStatus(state, DerivedFlags(approvals, inputs));
        Ok(Projection(Thread(id, status, turns), ActiveTurnId(state.turns), approvals, inputs))
  }

  // ----- Seeding -----

  function SerializeTurnStatus(s: TurnStatus): string {
    match s
    case Completed => "completed"
    case Interrupted => "interrupted"
    case Failed => "failed"
    case InProgress => "inProgress"
  }

  function TypeName(item: ThreadItem): string {
    match item
    case UserMessage(_, _) => "userMessage"
    case AgentMessage(_, _, _) => "agentMessage"
    case Plan(_, _) => "plan"
    case Reasoning(_, _, _) => "reasoning"
    case CommandExecution(_, _, _, _) => "commandExecution"
    case OtherItem(_, kind, _) => kind
  }

  function StatusName(s: CommandStatus): string {
    match s
    case CommandInProgress => "inProgress"
    case CommandCompleted => "completed"
    case CommandFailed => "failed"
    case CommandDeclined => "declined"
  }

  function Encoded<T>(f: T -> Value, xs: seq<T>): (r: seq<Value>)
    ensures |r| == |xs| && forall i :: 0 <= i < |xs| ==> r[i] == f(xs[i])
  {
    if xs == [] then [] else [f(xs[0])] + Encoded(f, xs[1..])
  }

  function LeadInput(items: seq<ThreadItem>): seq<UserInput> {
    if items != [] && items[0].UserMessage? then items[0].content else []
  }

  function AfterLead(items: seq<ThreadItem>): seq<ThreadItem> {
    if items != [] && items[0].UserMessage? then items[1..] else items
  }

  function SupportedItems(items: seq<ThreadItem>): seq<ThreadItem> {
    if items == [] then []
    else (if SupportedType(TypeName(items[0])) then [items[0]] else []) + SupportedItems(items[1..])
  }

  function SeedTurn(c: Codec, turn: Turn): Value {
    Object(map[
      "turnId" := Str(turn.id),
      "status" := Str(SerializeTurnStatus(turn.status)),
      "error" := if turn.error.Some? then c.encodeError(turn.error.value) else Null,
      "items" := Array(Encoded(c.encodeItem, SupportedItems(AfterLead(turn.items)))),
      "params" := Object(map["input" := Array(Encoded(c.encodeInput, LeadInput(turn.items)))]),
      "interruptedCommandExecutionItemIds" := Array([])])
  }

  function SeedState(c: Codec, thread: Thread): Value {
    Object(c.seedOthers(thread) + map[
      "turns" := Array(Encoded(t => SeedTurn(c, t), thread.turns)),
      "threadRuntimeStatus" := c.encodeStatus(thread.status),
      "requests" := Array([])])
  }

  // ----- Serialisation laws -----

  /** A value that decoding some JSON gives: of such values alone is a round trip asked. */
  ghost predicate Reads<T(!new)>(decode: Value -> Option<T>, x: T) {
    exists v :: decode(v) == Some(x)
  }

  /** The kind of an item outside the modelled variants is not the type of a modelled one. */
  predicate WellKinded(item: ThreadItem) {
    item.OtherItem? ==>
      item.kind !in {"userMessage", "agentMessage", "plan", "reasoning", "commandExecution"}
  }

  /** What is asked of an item that is ever decoded; a user message may have any id. */
  ghost predicate ItemLaw(c: Codec, item: ThreadItem) {
    var v := c.encodeItem(item);
    && c.decodeItem(v) == Some(item)
    && WellKinded(item)
    && StringAt(v, "type") == Some(TypeName(item))
    && (item.UserMessage? ==>
          && (forall u :: u in item.content ==> Reads(c.decodeInput, u))
          && (forall id: string :: Reads(c.decodeItem, UserMessage(id, item.content))))
    && (item.CommandExecution? ==>
          && StringAt(v, "status") == Some(StatusName(item.status))
          && c.decodeItem(Object(v.fields["status" := Str("failed")])) == Some(item.(status := CommandFailed)))
  }

  ghost predicate InputLaw(c: Codec, u: UserInput) {
    c.decodeInput(c.encodeInput(u)) == Some(u)
  }

  /** An encoded error is never null. */
  ghost predicate ErrorLaw(c: Codec, e: TurnError) {
    c.decodeError(c.encodeError(e)) == Some(e) && !c.encodeError(e).Null?
  }

  ghost predicate StatusLaw(c: Codec, s: ThreadStatus) {
    c.decodeStatus(c.encodeStatus(s)) == Some(s) && !c.encodeStatus(s).Null?
  }

  ghost predicate HeldTurn(c: Codec, turn: Turn) {
    && (forall i :: i in turn.items ==> Reads(c.decodeItem, i))
    && (turn.error.Some? ==> Reads(c.decodeError, turn.error.value))
  }

  ghost predicate HeldTurns(c: Codec, turns: seq<Turn>) {
    forall t :: t in turns ==> HeldTurn(c, t)
  }

  /** Items and errors of the thread are such as can be decoded. */
  ghost predicate Held(c: Codec, thread: Thread) {
    HeldTurns(c, thread.turns)
  }

  ghost predicate SeedLaw(c: Codec, thread: Thread) {
    "resumeState" !in c.seedOthers(thread) && c.othersFit(SeedState(c, thread).fields)
  }

  /** Writing a value that can be decoded and reading it back gives the value. */
  ghost predicate Lawful(c: Codec) {
    && (forall i :: Reads(c.decodeItem, i) ==> ItemLaw(c, i))
    && (forall u :: Reads(c.decodeInput, u) ==> InputLaw(c, u))
    && (forall e :: Reads(c.decodeError, e) ==> ErrorLaw(c, e))
    && (forall s :: StatusLaw(c, s))
    && (forall t :: Held(c, t) ==> SeedLaw(c, t))
  }

  // ----- The normal form -----

  /** A command still in progress in an interrupted turn has failed. */
  function Settled(item: ThreadItem, status: TurnStatus): ThreadItem {
    if status.Interrupted? && item.CommandExecution? && item.status.CommandInProgress?
    then item.(status := CommandFailed) else item
  }

  predicate Repeats(item: ThreadItem, input: seq<UserInput>) {
    item.UserMessage? && item.content == input
  }

  /** The supported items that do not repeat the input, settled. */
  function Survivors(items: seq<ThreadItem>, input: seq<UserInput>, status: TurnStatus): seq<ThreadItem> {
    if items == [] then []
    else
      (if !SupportedType(TypeName(items[0])) || Repeats(items[0], input)
       then [] else [Settled(items[0], status)])
      + Survivors(items[1..], input, status)
  }

  function NormalTurn(turn: Turn): Turn {
    var input := LeadInput(turn.items);
    turn.(items := InputItems(turn.id, input) + Survivors(AfterLead(turn.items), input, turn.status))
  }

  function NormalTurns(turns: seq<Turn>): (r: seq<Turn>)
    ensures |r| == |turns| && forall i :: 0 <= i < |turns| ==> r[i] == NormalTurn(turns[i])
  {
    if turns == [] then [] else [NormalTurn(turns[0])] + NormalTurns(turns[1..])
  }

  function LastInProgress(turns: seq<Turn>): Option<string> {
    if turns == [] then None
    else
      var last := turns[|turns| - 1];
      if last.status.InProgress? then Some(last.id) else LastInProgress(turns[..|turns| - 1])
  }

  lemma {:induction false} DecodeEach<T>(f: Value -> Option<T>, xs: seq<Value>, ts: seq<T>)
    requires |xs| == |ts| && forall i :: 0 <= i < |xs| ==> f(xs[i]) == Some(ts[i])
    ensures DecodeList(f, xs) == Some(ts)
  {
    if xs != [] {
      DecodeEach(f, xs[1..], ts[1..]);
      assert [ts[0]] + ts[1..] == ts;
    }
  }

  lemma DecodeEncoded<T>(decode: Value -> Option<T>, encode: T -> Value, xs: seq<T>)
    requires forall x :: x in xs ==> decode(encode(x)) == Some(x)
    ensures DecodeList(decode, Encoded(encode, xs)) == Some(xs)
  {
    DecodeEach(decode, Encoded(encode, xs), xs);
  }

  lemma DecodeValues(xs: seq<Value>)
    ensures DecodeList(AsValue, xs) == Some(xs)
  {
    DecodeEach(AsValue, xs, xs);
  }

  /** The raw turn that a seeded turn reads back as. */
  function SeededTurn(c: Codec, turn: Turn): DesktopTurn {
    DesktopTurn(Some(turn.id), Some(SerializeTurnStatus(turn.status)), turn.error,
                Encoded(c.encodeItem, SupportedItems(AfterLead(turn.items))), LeadInput(turn.items), [])
  }

  lemma DecodeSeededTurn(c: Codec, turn: Turn)
    requires Lawful(c) && HeldTurn(c, turn)
    ensures DecodeTurn(c, SeedTurn(c, turn)) == Some(SeededTurn(c, turn))
  {
    hide SupportedItems, AfterLead, LeadInput, Lawful, DecodeList, Encoded, DecodeInputs, HeldTurn;
    DecodeValues(Encoded(c.encodeItem, SupportedItems(AfterLead(turn.items))));
    DecodeSeededInput(c, turn);
    DecodeSeededError(c, turn);
    DecodeNoIds();
  }

  lemma DecodeSeededInput(c: Codec, turn: Turn)
    requires Lawful(c) && HeldTurn(c, turn)
    ensures DecodeInputs(c, SeedTurn(c, turn).fields) == Some(LeadInput(turn.items))
  {
    hide SupportedItems, AfterLead, LeadInput, ItemLaw, DecodeList, Encoded, SeedLaw, StatusLaw, ErrorLaw;
    LeadInputLawful(c, turn);
    DecodeEncoded(c.decodeInput, c.encodeInput, LeadInput(turn.items));
  }

  lemma LeadInputLawful(c: Codec, turn: Turn)
    requires Lawful(c) && HeldTurn(c, turn)
    ensures forall u :: u in LeadInput(turn.items) ==> InputLaw(c, u)
  {
    hide InputLaw, SeedLaw, StatusLaw, ErrorLaw;
    if turn.items != [] && turn.items[0].UserMessage? {
      assert ItemLaw(c, turn.items[0]);
    }
  }

  lemma DecodeSeededError(c: Codec, turn: Turn)
    requires Lawful(c) && HeldTurn(c, turn)
    ensures OptionalField(c.decodeError, SeedTurn(c, turn).fields, "error") == Some(turn.error)
  {
    hide SupportedItems, AfterLead, LeadInput, ItemLaw, DecodeList, Encoded, SeedLaw, StatusLaw;
    if turn.error.Some? {
      assert ErrorLaw(c, turn.error.value);
    }
  }

  lemma DecodeNoIds()
    ensures DecodeList(AsString, []) == Some([])
  {
  }

  lemma ProjectEncodedItem(c: Codec, turn: Turn, item: ThreadItem)
    requires Lawful(c) && Reads(c.decodeItem, item) && SupportedType(TypeName(item))
    ensures ProjectItem(c, SeededTurn(c, turn), c.encodeItem(item)) ==
            Ok(if item.UserMessage? && item.content == LeadInput(turn.items) then None
               else Some(Settled(item, turn.status)))
  {
    hide SupportedItems, AfterLead, LeadInput, Encoded, SeedLaw, StatusLaw, ErrorLaw, InputLaw;
    assert ItemLaw(c, item);
    var raw := c.encodeItem(item);
    if item.CommandExecution? && turn.status.Interrupted? && item.status.CommandInProgress? {
      assert NormalizeCommandStatus(raw, SeededTurn(c, turn).status, [])
          == Object(raw.fields["status" := Str("failed")]);
    }
  }

  lemma {:induction false} ProjectEncodedItems(c: Codec, turn: Turn, items: seq<ThreadItem>)
    requires Lawful(c) && forall i :: i in items ==> Reads(c.decodeItem, i)
    ensures ProjectItems(c, SeededTurn(c, turn), Encoded(c.encodeItem, SupportedItems(items)))
         == Ok(Survivors(items, LeadInput(turn.items), turn.status))
  {
    hide ProjectItem, LeadInput, SeededTurn, Settled, Lawful, TypeName, Reads;
    if items != [] {
      ProjectEncodedItems(c, turn, items[1..]);
      if SupportedType(TypeName(items[0])) {
        ProjectEncodedItem(c, turn, items[0]);
        var supported := SupportedItems(items);
        assert supported[1..] == SupportedItems(items[1..]);
        assert Encoded(c.encodeItem, supported)[1..] == Encoded(c.encodeItem, SupportedItems(items[1..]));
      } else {
        assert SupportedItems(items) == SupportedItems(items[1..]);
        assert Survivors(items, LeadInput(turn.items), turn.status)
            == Survivors(items[1..], LeadInput(turn.items), turn.status);
      }
    }
  }

  lemma ProjectSeededTurn(c: Codec, turn: Turn, index: nat)
    requires Lawful(c) && HeldTurn(c, turn)
    ensures ProjectTurnAt(c, SeededTurn(c, turn), index) == Ok(NormalTurn(turn))
  {
    hide SupportedItems, LeadInput, Lawful, Survivors, ProjectItems, Encoded, Reads;
    ProjectEncodedItems(c, turn, AfterLead(turn.items));
  }

  function SeededTurns(c: Codec, turns: seq<Turn>): (r: seq<DesktopTurn>)
    ensures |r| == |turns| && forall i :: 0 <= i < |turns| ==> r[i] == SeededTurn(c, turns[i])
  {
    seq(|turns|, i requires 0 <= i < |turns| => SeededTurn(c, turns[i]))
  }

  lemma {:induction false} DecodeSeededTurns(c: Codec, turns: seq<Turn>)
    requires Lawful(c) && HeldTurns(c, turns)
    ensures DecodeList(t => DecodeTurn(c, t), Encoded(t => SeedTurn(c, t), turns)) == Some(SeededTurns(c, turns))
  {
    hide SeededTurn, SeedTurn, DecodeTurn, Lawful, SeededTurns, Encoded, HeldTurn;
    forall i | 0 <= i < |turns| ensures DecodeTurn(c, SeedTurn(c, turns[i])) == Some(SeededTurn(c, turns[i])) {
      DecodeSeededTurn(c, turns[i]);
    }
    DecodeEach(t => DecodeTurn(c, t), Encoded(t => SeedTurn(c, t), turns), SeededTurns(c, turns));
  }

  lemma {:induction false} ProjectSeededTurns(c: Codec, turns: seq<Turn>, index: nat)
    requires Lawful(c) && HeldTurns(c, turns)
    ensures ProjectTurns(c, SeededTurns(c, turns), index) == Ok(NormalTurns(turns))
  {
    hide SeededTurn, ProjectTurnAt, NormalTurn, Lawful, HeldTurn;
    if turns != [] {
      ProjectSeededTurn(c, turns[0], index);
      ProjectSeededTurns(c, turns[1..], index + 1);
      assert SeededTurns(c, turns)[1..] == SeededTurns(c, turns[1..]);
    }
  }

  lemma {:induction false} SeededActiveTurn(c: Codec, turns: seq<Turn>)
    ensures ActiveTurnId(SeededTurns(c, turns)) == LastInProgress(turns)
  {
    hide SeededTurn, SeededTurns;
    if turns == [] {
      assert SeededTurns(c, turns) == [];
    } else {
      var front, last := turns[..|turns| - 1], turns[|turns| - 1];
      SeededActiveTurn(c, front);
      SeededHead(c, last);
      assert SeededTurns(c, turns)[..|turns| - 1] == SeededTurns(c, front);
    }
  }

  lemma SeededHead(c: Codec, turn: Turn)
    ensures var seeded := SeededTurn(c, turn);
            seeded.turnId == Some(turn.id) && (seeded.status == Some("inProgress") <==> turn.status.InProgress?)
  {
  }

  /**
    Seeding a thread and projecting the seed keeps its status and its turns, each turn in
    normal form, and names its last turn in progress as active; pending requests are gone.
   */
  lemma {:induction false} SeedThenProject(c: Codec, thread: Thread, id: string)
    requires Lawful(c) && Held(c, thread)
    ensures ProjectState(c, id, SeedState(c, thread)) ==
            Ok(Projection(Thread(id, thread.status, NormalTurns(thread.turns)), LastInProgress(thread.turns), [], []))
  {
    hide DecodeTurn, SeedTurn, Encoded, DecodeList, NormalTurns, SeededTurns, ProjectTurns, ItemLaw, InputLaw,
      ErrorLaw, ActiveTurnId, LastInProgress;
    var raw := SeedState(c, thread);
    DecodeSeededTurns(c, thread.turns);
    ProjectSeededTurns(c, thread.turns, 0);
    SeededActiveTurn(c, thread.turns);
    DecodeNone();
    assert SeedLaw(c, thread) && StatusLaw(c, thread.status);
    assert DecodeState(c, raw) == Some(DesktopState(SeededTurns(c, thread.turns), Some(thread.status), None, []));
  }

  lemma DecodeNone()
    ensures DecodeList(DecodeRequest, []) == Some([])
  {
  }

  // ----- Reaching the normal form -----

  ghost predicate AllSettled(s: seq<ThreadItem>, status: TurnStatus) {
    forall i :: 0 <= i < |s| ==> SupportedType(TypeName(s[i])) && Settled(s[i], status) == s[i]
  }

  lemma {:induction false} SurvivorsSettled(items: seq<ThreadItem>, input: seq<UserInput>, status: TurnStatus)
    ensures var s := Survivors(items, input, status);
            && AllSettled(s, status)
            && forall i :: 0 <= i < |s| ==> !Repeats(s[i], input)
  {
    hide SupportedType;
    if items != [] {
      SurvivorsSettled(items[1..], input, status);
      assert TypeName(Settled(items[0], status)) == TypeName(items[0]);
    }
  }

  /** Filtering settled, supported items again keeps them all exactly when none repeats the input. */
  lemma {:induction false} SurvivorsAgain(s: seq<ThreadItem>, input: seq<UserInput>, status: TurnStatus)
    requires AllSettled(s, status)
    ensures |Survivors(s, input, status)| <= |s|
    ensures Survivors(s, input, status) == s
       <==> forall i :: 0 <= i < |s| ==> !Repeats(s[i], input)
  {
    hide SupportedType, Settled, TypeName;
    if s != [] {
      SurvivorsAgain(s[1..], input, status);
      assert s == [s[0]] + s[1..];
    }
  }

  /** Does one pass reach the normal form? */
  predicate OnePassEnough(turn: Turn) {
    if LeadInput(turn.items) != [] then true
    else
      var s := Survivors(AfterLead(turn.items), [], turn.status);
      s == [] || !s[0].UserMessage?
      || (s[0].id == turn.id + ":input"
          && forall i :: 1 <= i < |s| ==> !Repeats(s[i], s[0].content))
  }

  /** Normalising a turn that opens with its own input. */
  lemma NormalWithInput(turn: Turn, input: seq<UserInput>, s: seq<ThreadItem>)
    requires input != [] && turn.items == [UserMessage(turn.id + ":input", input)] + s
    ensures NormalTurn(turn).items == [UserMessage(turn.id + ":input", input)] + Survivors(s, input, turn.status)
  {
    hide Survivors;
    assert turn.items[1..] == s;
  }

  lemma {:induction false} NormalWithLead(turn: Turn, s: seq<ThreadItem>)
    requires LeadInput(turn.items) != []
    requires s == Survivors(AfterLead(turn.items), LeadInput(turn.items), turn.status)
    ensures NormalTurn(NormalTurn(turn)) == NormalTurn(turn)
  {
    hide Survivors, LeadInput, AfterLead, NormalTurn;
    var input := LeadInput(turn.items);
    SurvivorsSettled(AfterLead(turn.items), input, turn.status);
    SurvivorsAgain(s, input, turn.status);
    NormalIs(turn);
    NormalWithInput(NormalTurn(turn), input, s);
    NormalIs(NormalTurn(turn));
  }

  lemma NormalIs(turn: Turn)
    ensures var input := LeadInput(turn.items);
            NormalTurn(turn) ==
            turn.(items := InputItems(turn.id, input) + Survivors(AfterLead(turn.items), input, turn.status))
  {
    hide Survivors, LeadInput, AfterLead, InputItems;
  }

  /** Without an input the survivors are the turn; those of a leading message are an input the next time. */
  lemma {:induction false} NormalWithoutLead(turn: Turn, s: seq<ThreadItem>)
    requires LeadInput(turn.items) == [] && s == Survivors(AfterLead(turn.items), [], turn.status)
    ensures NormalTurn(turn) == turn.(items := s)
    ensures s == [] || !s[0].UserMessage? ==> NormalTurn(turn.(items := s)) == turn.(items := s)
    ensures s != [] && s[0].UserMessage? ==>
              NormalTurn(turn.(items := s)) ==
              turn.(items :=
                [UserMessage(turn.id + ":input", s[0].content)] + Survivors(s[1..], s[0].content, turn.status))
  {
    hide Survivors, SupportedType, TypeName, Settled, NormalTurn;
    NormalIs(turn);
    assert [] + s == s;
    SurvivorsSettled(AfterLead(turn.items), [], turn.status);
    SurvivorsAgain(s, [], turn.status);
    NormalIs(turn.(items := s));
    assert [] + Survivors(s, [], turn.status) == s;
    if s != [] {
      assert !Repeats(s[0], []);
    }
  }

  /**
    A second pass changes nothing exactly when the turn opened with a non-empty user message,
    or its first surviving item is not a user message (or already is the input, unrepeated).
   */
  lemma {:induction false} NormalTurnIdempotent(turn: Turn)
    ensures NormalTurn(NormalTurn(turn)) == NormalTurn(turn) <==> OnePassEnough(turn)
  {
    hide SupportedType, Settled, TypeName, Survivors, NormalTurn, LeadInput, AfterLead;
    var s := Survivors(AfterLead(turn.items), LeadInput(turn.items), turn.status);
    if LeadInput(turn.items) != [] {
      NormalWithLead(turn, s);
    } else {
      NormalWithoutLead(turn, s);
      if s != [] && s[0].UserMessage? {
        SurvivorsSettled(AfterLead(turn.items), [], turn.status);
        LeadAgain(turn, s);
      }
    }
  }

  lemma {:induction false} LeadAgain(turn: Turn, s: seq<ThreadItem>)
    requires s != [] && s[0].UserMessage? && AllSettled(s, turn.status)
    ensures [UserMessage(turn.id + ":input", s[0].content)] + Survivors(s[1..], s[0].content, turn.status) == s
       <==> s[0].id == turn.id + ":input" && forall i :: 1 <= i < |s| ==> !Repeats(s[i], s[0].content)
  {
    hide SupportedType, Settled, TypeName, Survivors, Repeats;
    var input, tail := s[0].content, s[1..];
    var again := Survivors(tail, input, turn.status);
    SurvivorsAgain(tail, input, turn.status);
    assert forall i :: 1 <= i < |s| ==> s[i] == tail[i - 1];
    assert forall i :: 0 <= i < |tail| ==> tail[i] == s[i + 1];
    assert s == [s[0]] + tail;
    var twice := [UserMessage(turn.id + ":input", input)] + again;
    assert twice[0] == UserMessage(turn.id + ":input", input) && twice[1..] == again;
  }

  /** Two passes always reach it. */
  lemma {:induction false} NormalTurnReachedInTwo(turn: Turn)
    ensures NormalTurn(NormalTurn(NormalTurn(turn))) == NormalTurn(NormalTurn(turn))
  {
    hide SupportedType, Settled, TypeName, Survivors, NormalTurn;
    var once := NormalTurn(turn);
    NormalTurnIdempotent(turn);
    NormalTurnIdempotent(once);
    if !OnePassEnough(turn) {
      SurvivorsLeadIsInput(turn);
    }
  }

  lemma {:induction false} SurvivorsLeadIsInput(turn: Turn)
    requires !OnePassEnough(turn)
    ensures LeadInput(NormalTurn(turn).items) != []
  {
    hide SupportedType, Settled, TypeName, Survivors;
    SurvivorsSettled(AfterLead(turn.items), [], turn.status);
  }

  /** A turn that takes both: its empty leading message goes, and with the next pass the other is renamed. */
  lemma EmptyLeadTakesTwo()
    ensures var said := [OtherInput("x")];
            var turn := Turn("t", [UserMessage("a", []), UserMessage("b", said)], Completed, None);
            && !OnePassEnough(turn)
            && NormalTurn(turn).items == [UserMessage("b", said)]
            && NormalTurn(NormalTurn(turn)).items == [UserMessage("t:input", said)]
  {
    var said := [OtherInput("x")];
    var turn := Turn("t", [UserMessage("a", []), UserMessage("b", said)], Completed, None);
    assert turn.items[1..] == [UserMessage("b", said)];
    NormalWithoutLead(turn, [UserMessage("b", said)]);
    assert "t" + ":input" == "t:input" && [UserMessage("b", said)][1..] == [];
    assert Survivors([], said, Completed) == [];
  }

  /** When every user message has content and the turn starts with a supported item, one pass is enough. */
  lemma {:induction false} NonEmptyMessagesNormaliseAtOnce(turn: Turn)
    requires forall i :: i in turn.items && i.UserMessage? ==> i.content != []
    requires turn.items != [] ==> SupportedType(TypeName(turn.items[0]))
    ensures NormalTurn(NormalTurn(turn)) == NormalTurn(turn)
  {
    NormalTurnIdempotent(turn);
  }

  lemma {:induction false} NormalTurnsKeep(c: Codec, turns: seq<Turn>)
    requires Lawful(c) && HeldTurns(c, turns)
    ensures HeldTurns(c, NormalTurns(turns))
    ensures LastInProgress(NormalTurns(turns)) == LastInProgress(turns)
  {
    hide NormalTurns, NormalTurn, Lawful, HeldTurn;
    forall t | t in NormalTurns(turns) ensures HeldTurn(c, t) {
      var k :| 0 <= k < |turns| && NormalTurn(turns[k]) == t;
      NormalTurnHeld(c, turns[k]);
    }
    NormalTurnsActive(turns);
  }

  lemma {:induction false} NormalTurnsActive(turns: seq<Turn>)
    ensures LastInProgress(NormalTurns(turns)) == LastInProgress(turns)
  {
    hide NormalTurns, NormalTurn;
    if turns == [] {
      assert NormalTurns(turns) == [];
    } else {
      var front, last := turns[..|turns| - 1], turns[|turns| - 1];
      NormalTurnsActive(front);
      NormalHead(last);
      assert NormalTurns(turns)[..|turns| - 1] == NormalTurns(front);
    }
  }

  lemma NormalHead(turn: Turn)
    ensures NormalTurn(turn).id == turn.id && NormalTurn(turn).status == turn.status
    ensures NormalTurn(turn).error == turn.error
  {
  }

  lemma NormalTurnHeld(c: Codec, turn: Turn)
    requires Lawful(c) && HeldTurn(c, turn)
    ensures HeldTurn(c, NormalTurn(turn))
  {
    hide Lawful, Survivors, Reads, LeadInput, AfterLead, InputItems, NormalTurn;
    var input, others := LeadInput(turn.items), AfterLead(turn.items);
    LeadHeld(c, turn);
    SurvivorsHeld(c, others, input, turn.status);
    NormalIs(turn);
  }

  lemma LeadHeld(c: Codec, turn: Turn)
    requires Lawful(c) && HeldTurn(c, turn)
    ensures forall i :: i in InputItems(turn.id, LeadInput(turn.items)) ==> Reads(c.decodeItem, i)
    ensures forall i :: i in AfterLead(turn.items) ==> Reads(c.decodeItem, i)
  {
    hide SeedLaw, StatusLaw, ErrorLaw, InputLaw, Reads;
    if turn.items != [] && turn.items[0].UserMessage? {
      assert ItemLaw(c, turn.items[0]);
    }
  }

  lemma {:induction false} SurvivorsHeld(
      c: Codec, items: seq<ThreadItem>, input: seq<UserInput>, status: TurnStatus)
    requires Lawful(c) && forall i :: i in items ==> Reads(c.decodeItem, i)
    ensures forall i :: i in Survivors(items, input, status) ==> Reads(c.decodeItem, i)
  {
    hide SupportedType, Lawful, Reads, Settled;
    if items != [] {
      assert items[0] in items;
      SettledHeld(c, items[0], status);
      SurvivorsHeld(c, items[1..], input, status);
    }
  }

  lemma SettledHeld(c: Codec, item: ThreadItem, status: TurnStatus)
    requires Lawful(c) && Reads(c.decodeItem, item)
    ensures Reads(c.decodeItem, Settled(item, status))
  {
    hide SeedLaw, StatusLaw, ErrorLaw, InputLaw;
    assert ItemLaw(c, item);
  }

  /**
    Seeding and projecting a second time gives the same projection exactly when one pass was
    enough for every turn; a third time never changes anything.
   */
  lemma {:induction false} SeedProjectFixpoint(c: Codec, thread: Thread, id: string)
    returns (first: Projection, second: Projection)
    requires Lawful(c) && Held(c, thread)
    ensures ProjectState(c, id, SeedState(c, thread)) == Ok(first)
    ensures ProjectState(c, id, SeedState(c, first.thread)) == Ok(second)
    ensures second == first <==> forall t :: t in thread.turns ==> OnePassEnough(t)
    ensures ProjectState(c, id, SeedState(c, second.thread)) == Ok(second)
  {
    hide ProjectState, SeedState, Lawful, NormalTurns, NormalTurn, OnePassEnough, LastInProgress;
    var t0 := thread.turns;
    var t1 := NormalTurns(t0);
    var t2 := NormalTurns(t1);
    SeedThenProject(c, thread, id);
    NormalTurnsKeep(c, t0);
    first := Projection(Thread(id, thread.status, t1), LastInProgress(t0), [], []);
    SeedThenProject(c, first.thread, id);
    NormalTurnsKeep(c, t1);
    second := Projection(Thread(id, thread.status, t2), LastInProgress(t1), [], []);
    SeedThenProject(c, second.thread, id);
    NormalTurnsKeep(c, t2);
    forall i | 0 <= i < |t0| ensures t2[i] == t1[i] <==> OnePassEnough(t0[i]) {
      NormalTurnIdempotent(t0[i]);
    }
    forall i | 0 <= i < |t0| ensures NormalTurns(t2)[i] == t2[i] {
      NormalTurnReachedInTwo(t0[i]);
    }
    assert NormalTurns(t2) == t2;
    assert t2 == t1 <==> forall i :: 0 <= i < |t0| ==> t2[i] == t1[i];
  }

  // ----- The active turn -----

  lemma {:induction false} ProjectedTurnAt(c: Codec, turns: seq<DesktopTurn>, index: nat, i: nat)
    requires ProjectTurns(c, turns, index).Ok? && i < |turns|
    ensures ProjectTurnAt(c, turns[i], index + i) == Ok(ProjectTurns(c, turns, index).value[i])
  {
    hide ProjectTurnAt;
    if i > 0 {
      ProjectedTurnAt(c, turns[1..], index + 1, i - 1);
    }
  }

  lemma {:induction false} ActiveTurnIsThere(turns: seq<DesktopTurn>)
    requires ActiveTurnId(turns).Some?
    ensures exists i :: 0 <= i < |turns|
              && turns[i].turnId == ActiveTurnId(turns) && turns[i].status == Some("inProgress")
  {
    if turns[|turns| - 1].status != Some("inProgress") {
      var front := turns[..|turns| - 1];
      ActiveTurnIsThere(front);
      var i :| 0 <= i < |front| && front[i].turnId == ActiveTurnId(turns) && front[i].status == Some("inProgress");
      assert turns[i] == front[i];
    }
  }

  /** The active turn of a projection is one of its turns, and that turn is in progress. */
  lemma {:induction false} ActiveTurnInProgress(c: Codec, id: string, raw: Value)
    requires ProjectState(c, id, raw).Ok? && ProjectState(c, id, raw).value.activeTurnId.Some?
    ensures var p := ProjectState(c, id, raw).value;
            exists t :: t in p.thread.turns && Some(t.id) == p.activeTurnId && t.status.InProgress?
  {
    hide DecodeState, ResolveStatus, PendingRequests, ProjectTurns, ActiveTurnId;
    var state := DecodeState(c, raw).value;
    var p := ProjectState(c, id, raw).value;
    ActiveTurnIsThere(state.turns);
    var i :| 0 <= i < |state.turns|
      && state.turns[i].turnId == p.activeTurnId && state.turns[i].status == Some("inProgress");
    ProjectedTurnAt(c, state.turns, 0, i);
    var t := p.thread.turns[i];
    assert t in p.thread.turns && Some(t.id) == p.activeTurnId && t.status.InProgress?;
  }

  // ----- Where items come from -----

  lemma {:induction false} ProjectedItemsRead(c: Codec, turn: DesktopTurn, raws: seq<Value>)
    requires ProjectItems(c, turn, raws).Ok?
    ensures forall i :: i in ProjectItems(c, turn, raws).value ==> Reads(c.decodeItem, i)
  {
    hide SupportedType, NormalizeCommandStatus;
    if raws != [] {
      ProjectedItemsRead(c, turn, raws[1..]);
    }
  }

  lemma ProjectedTurnRead(c: Codec, turn: DesktopTurn, index: nat)
    requires ProjectTurnAt(c, turn, index).Ok?
    ensures forall i :: i in ProjectTurnAt(c, turn, index).value.items && !i.UserMessage? ==> Reads(c.decodeItem, i)
  {
    hide ProjectItems, Reads;
    ProjectedItemsRead(c, turn, turn.items);
  }

  /** Every item of a projection but a turn's input was decoded from the raw state. */
  lemma {:induction false} ProjectedRead(c: Codec, id: string, raw: Value)
    requires ProjectState(c, id, raw).Ok?
    ensures forall t, i :: t in ProjectState(c, id, raw).value.thread.turns && i in t.items && !i.UserMessage? ==>
              Reads(c.decodeItem, i)
  {
    hide DecodeState, ResolveStatus, PendingRequests, ProjectTurns, ProjectTurnAt, ActiveTurnId, Reads;
    var state := DecodeState(c, raw).value;
    var turns := ProjectState(c, id, raw).value.thread.turns;
    forall t, i | t in turns && i in t.items && !i.UserMessage? ensures Reads(c.decodeItem, i) {
      var k :| 0 <= k < |turns| && turns[k] == t;
      ProjectedTurnAt(c, state.turns, 0, k);
      ProjectedTurnRead(c, state.turns[k], k);
    }
  }

  /** What is decoded is a Rust value, so its texts are valid. */
  ghost predicate ReadsText(c: Codec) {
    forall i :: Reads(c.decodeItem, i) ==> ValidTexts(i)
  }

  /** And they may be any others: there are decoded items of the same id and other fields with any valid texts. */
  ghost predicate TakesText(c: Codec) {
    forall i, next :: Reads(c.decodeItem, i) && SameButText(i, next) && ValidTexts(next) ==> Reads(c.decodeItem, next)
  }

  /** Every text of a projection is valid. */
  lemma {:induction false} ProjectedTextsValid(c: Codec, id: string, raw: Value)
    requires ReadsText(c) && ProjectState(c, id, raw).Ok?
    ensures AllTextsValid(ProjectState(c, id, raw).value.thread.turns)
  {
    hide ProjectState, Reads;
    ProjectedRead(c, id, raw);
    var turns := ProjectState(c, id, raw).value.thread.turns;
    forall t, i | t in turns && i in t.items ensures ValidTexts(i) {
      if !i.UserMessage? {
        assert Reads(c.decodeItem, i);
      }
    }
  }

  // ----- Interrupted commands and waiting flags -----

  /** Decoding a command reads its type, id and status from the fields of those names. */
  ghost predicate ReadsCommands(c: Codec) {
    forall v :: ReadsCommand(c, v)
  }

  ghost predicate ReadsCommand(c: Codec, v: Value) {
    var item := c.decodeItem(v);
    item.Some? && item.value.CommandExecution? ==>
      && StringAt(v, "type") == Some("commandExecution")
      && StringAt(v, "id") == Some(item.value.id)
      && StringAt(v, "status") == Some(StatusName(item.value.status))
  }

  predicate IsInterrupted(turn: DesktopTurn, id: string) {
    turn.status == Some("interrupted") || id in turn.interruptedIds
  }

  predicate StillRunning(item: ThreadItem) {
    item.CommandExecution? && item.status.CommandInProgress?
  }

  lemma ProjectedItemSettled(c: Codec, turn: DesktopTurn, raw: Value)
    requires ReadsCommands(c)
    ensures match ProjectItem(c, turn, raw)
            case Ok(Some(item)) => StillRunning(item) ==> !IsInterrupted(turn, item.id)
            case _ => true
  {
    hide SupportedType;
    var settled := if StringAt(raw, "type") == Some("commandExecution")
                   then NormalizeCommandStatus(raw, turn.status, turn.interruptedIds) else raw;
    assert ReadsCommand(c, settled) && ReadsCommand(c, raw);
  }

  lemma {:induction false} ProjectedItemsSettled(c: Codec, turn: DesktopTurn, raws: seq<Value>)
    requires ReadsCommands(c) && ProjectItems(c, turn, raws).Ok?
    ensures forall item :: item in ProjectItems(c, turn, raws).value && StillRunning(item) ==>
              !IsInterrupted(turn, item.id)
  {
    hide ProjectItem, ReadsCommands, StillRunning, IsInterrupted;
    if raws != [] {
      ProjectedItemSettled(c, turn, raws[0]);
      ProjectedItemsSettled(c, turn, raws[1..]);
    }
  }

  /** No projected command is still running that its turn, or its own id, marks as interrupted. */
  lemma {:induction false} InterruptedCommandsSettled(c: Codec, turn: DesktopTurn, index: nat)
    requires ReadsCommands(c) && ProjectTurnAt(c, turn, index).Ok?
    ensures forall item :: item in ProjectTurnAt(c, turn, index).value.items && StillRunning(item) ==>
              !IsInterrupted(turn, item.id)
  {
    hide ProjectItems, ReadsCommands, IsInterrupted;
    ProjectedItemsSettled(c, turn, turn.items);
  }

  lemma {:induction false} MergedFlags(existing: seq<ActiveFlag>, derived: seq<ActiveFlag>)
    ensures forall f :: f in existing || f in derived ==> f in MergeFlags(existing, derived)
    decreases |derived|
  {
    if derived != [] {
      MergedFlags(if derived[0] in existing then existing else existing + [derived[0]], derived[1..]);
    }
  }

  /**
    An active thread says what it waits on: while a projection has open approvals or user-input
    requests, an active status carries the flag for each; and a thread without a runtime status
    of its own is active whenever it has an active turn or an open request, unless it is not loaded.
   */
  lemma {:induction false} WaitingIsFlagged(c: Codec, id: string, raw: Value)
    requires ProjectState(c, id, raw).Ok?
    ensures var p := ProjectState(c, id, raw).value;
            && (p.thread.status.Active? && p.pendingApprovals != [] ==> WaitingOnApproval in p.thread.status.flags)
            && (p.thread.status.Active? && p.pendingUserInputs != [] ==> WaitingOnUserInput in p.thread.status.flags)
            && (DecodeState(c, raw).value.runtimeStatus.None? && !p.thread.status.NotLoaded? ==>
                  (p.thread.status.Active? <==>
                     p.activeTurnId.Some? || p.pendingApprovals != [] || p.pendingUserInputs != []))
  {
    hide DecodeState, ProjectTurns, PendingRequests, ActiveTurnId;
    var state := DecodeState(c, raw).value;
    var p := ProjectState(c, id, raw).value;
    var flags := DerivedFlags(p.pendingApprovals, p.pendingUserInputs);
    if state.runtimeStatus.Some? && state.runtimeStatus.value.Active? {
      MergedFlags(state.runtimeStatus.value.flags, flags);
    }
  }
}
