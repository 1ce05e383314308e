/**
  A codec that meets every law assumed of one, so that the theorems about seeding and
  projecting are about something. It writes items with the field names of the desktop's JSON, and
  reads what Rust would: valid text, supported kinds, and a context compaction from its id alone.
 */
module PlainCodec {
  import opened Wrappers
  import opened Json
  import opened Thread
  import opened ConversationState
  import opened Utf8
  import opened ProjectedState

  function Chars(t: Text): string {
    seq(|t|, i requires 0 <= i < |t| => t[i] as char)
  }

  function Bytes(s: string): Text {
    seq(|s|, i requires 0 <= i < |s| => s[i] as int % 256)
  }

  function WriteText(t: Text): Value {
    Str(Chars(t))
  }

  function ReadText(v: Value): Text {
    if v.Str? then Bytes(v.s) else []
  }

  function At(v: Value, key: string): Value {
    if v.Object? && key in v.fields then v.fields[key] else Null
  }

  function Elements(v: Value): seq<Value> {
    if v.Array? then v.items else []
  }

  function ReadTexts(vs: seq<Value>): seq<Text> {
    if vs == [] then [] else [ReadText(vs[0])] + ReadTexts(vs[1..])
  }

  function WriteInput(u: UserInput): Value {
    match u
    case TextInput(t) => Object(map["text" := WriteText(t)])
    case OtherInput(p) => Str(p)
  }

  function ReadInput(v: Value): Option<UserInput> {
    var text := ReadText(At(v, "text"));
    if v.Str? then Some(OtherInput(v.s)) else if Valid(text) then Some(TextInput(text)) else None
  }

  function WriteOutput(o: Option<Text>): Value {
    if o.Some? then WriteText(o.value) else Null
  }

  function ReadOutput(v: Value): Option<Text> {
    if v.Str? then Some(Bytes(v.s)) else None
  }

  function WriteItem(item: ThreadItem): Value {
    var kind, id := Str(TypeName(item)), Str(item.id);
    match item
    case UserMessage(_, content) =>
      Object(map["type" := kind, "id" := id, "content" := Array(Encoded(WriteInput, content))])
    case AgentMessage(_, text, rest) =>
      Object(map["type" := kind, "id" := id, "text" := WriteText(text), "rest" := Str(rest)])
    case Plan(_, text) =>
      Object(map["type" := kind, "id" := id, "text" := WriteText(text)])
    case Reasoning(_, summary, thoughts) =>
      Object(map["type" := kind, "id" := id,
                 "summary" := Array(Encoded(WriteText, summary)), "content" := Array(Encoded(WriteText, thoughts))])
    case CommandExecution(_, status, output, rest) =>
      Object(map["type" := kind, "id" := id, "status" := Str(StatusName(status)),
                 "aggregatedOutput" := WriteOutput(output), "rest" := Str(rest)])
    case OtherItem(_, "contextCompaction", _) =>
      Object(map["type" := kind, "id" := id])
    case OtherItem(_, _, rest) =>
      Object(map["type" := kind, "id" := id, "rest" := Str(rest)])
  }

  function ReadStatus(s: Option<string>): Option<CommandStatus> {
    if s == Some("inProgress") then Some(CommandInProgress)
    else if s == Some("completed") then Some(CommandCompleted)
    else if s == Some("failed") then Some(CommandFailed)
    else if s == Some("declined") then Some(CommandDeclined)
    else None
  }

  /** The item a value spells, its texts not yet checked. */
  function ReadFields(v: Value): Option<ThreadItem> {
    var kind, id := StringAt(v, "type"), StringAt(v, "id");
    var rest := StringAt(v, "rest");
    if kind.None? || id.None? then None
    else if kind.value == "userMessage" then
      var content := DecodeList(ReadInput, Elements(At(v, "content")));
      if content.Some? then Some(UserMessage(id.value, content.value)) else None
    else if kind.value == "contextCompaction" then Some(OtherItem(id.value, kind.value, ""))
    else if kind.value == "plan" then Some(Plan(id.value, ReadText(At(v, "text"))))
    else if kind.value == "reasoning" then
      Some(Reasoning(id.value, ReadTexts(Elements(At(v, "summary"))), ReadTexts(Elements(At(v, "content")))))
    else if rest.None? then None
    else if kind.value == "agentMessage" then Some(AgentMessage(id.value, ReadText(At(v, "text")), rest.value))
    else if kind.value == "commandExecution" then
      var status := ReadStatus(StringAt(v, "status"));
      if status.None? then None
      else Some(CommandExecution(id.value, status.value, ReadOutput(At(v, "aggregatedOutput")), rest.value))
    else if SupportedType(kind.value) then Some(OtherItem(id.value, kind.value, rest.value))
    else None
  }

  function ReadItem(v: Value): Option<ThreadItem> {
    var item := ReadFields(v);
    if item.Some? && ValidTexts(item.value) then item else None
  }

  function WriteError(e: TurnError): Value {
    Str(e.message)
  }

  function ReadError(v: Value): Option<TurnError> {
    if v.Str? then Some(TurnError(v.s)) else None
  }

  function WriteFlags(flags: seq<ActiveFlag>): seq<Value> {
    if flags == [] then [] else [Bool(flags[0].WaitingOnApproval?)] + WriteFlags(flags[1..])
  }

  function ReadFlags(vs: seq<Value>): seq<ActiveFlag> {
    if vs == [] then []
    else [if vs[0] == Bool(true) then WaitingOnApproval else WaitingOnUserInput] + ReadFlags(vs[1..])
  }

  function WriteThreadStatus(s: ThreadStatus): Value {
    match s
    case NotLoaded => Str("notLoaded")
    case Idle => Str("idle")
    case SystemError => Str("systemError")
    case Active(flags) => Array(WriteFlags(flags))
  }

  function ReadThreadStatus(v: Value): Option<ThreadStatus> {
    if v == Str("notLoaded") then Some(NotLoaded)
    else if v == Str("idle") then Some(Idle)
    else if v == Str("systemError") then Some(SystemError)
    else if v.Array? then Some(Active(ReadFlags(v.items)))
    else None
  }

  function Plain(): Codec {
    Codec(ReadItem, WriteItem, ReadInput, WriteInput, ReadError, WriteError, ReadThreadStatus, WriteThreadStatus,
          _ => true, _ => map[], (_, _) => true)
  }

  lemma TextRoundTrip(t: Text)
    ensures ReadText(WriteText(t)) == t
  {
    assert Bytes(Chars(t)) == t;
  }

  lemma {:induction false} TextsRoundTrip(ts: seq<Text>)
    ensures ReadTexts(Encoded(WriteText, ts)) == ts
  {
    if ts != [] {
      TextRoundTrip(ts[0]);
      TextsRoundTrip(ts[1..]);
      assert Encoded(WriteText, ts)[1..] == Encoded(WriteText, ts[1..]);
      assert [ts[0]] + ts[1..] == ts;
    }
  }

  predicate ValidInput(u: UserInput) {
    u.TextInput? ==> Valid(u.text)
  }

  lemma InputRoundTrip(u: UserInput)
    requires ValidInput(u)
    ensures ReadInput(WriteInput(u)) == Some(u)
  {
    hide Valid;
    if u.TextInput? {
      TextRoundTrip(u.text);
    }
  }

  lemma {:induction false} InputsRoundTrip(us: seq<UserInput>)
    requires forall u :: u in us ==> ValidInput(u)
    ensures DecodeList(ReadInput, Encoded(WriteInput, us)) == Some(us)
  {
    hide ReadInput, WriteInput, ValidInput;
    forall u | u in us ensures ReadInput(WriteInput(u)) == Some(u) {
      InputRoundTrip(u);
    }
    DecodeEncoded(ReadInput, WriteInput, us);
  }

  lemma {:induction false} FlagsRoundTrip(flags: seq<ActiveFlag>)
    ensures ReadFlags(WriteFlags(flags)) == flags
  {
    if flags != [] {
      FlagsRoundTrip(flags[1..]);
      assert [flags[0]] + flags[1..] == flags;
    }
  }

  // ----- What it reads -----

  /** The items that are ever read. */
  predicate Plainly(item: ThreadItem) {
    && ValidTexts(item) && WellKinded(item) && SupportedType(TypeName(item))
    && (item.UserMessage? ==> forall u :: u in item.content ==> ValidInput(u))
    && (item.OtherItem? && item.kind == "contextCompaction" ==> item.rest == "")
  }

  lemma ReadIsPlain(v: Value)
    requires ReadItem(v).Some?
    ensures Plainly(ReadItem(v).value)
  {
    hide ReadText, ReadTexts, ReadOutput, ReadInput, ValidTexts, Valid;
    var item := ReadItem(v).value;
    if item.UserMessage? {
      ReadInputsValid(Elements(At(v, "content")));
    }
  }

  lemma ReadInputsValid(vs: seq<Value>)
    requires DecodeList(ReadInput, vs).Some?
    ensures forall u :: u in DecodeList(ReadInput, vs).value ==> ValidInput(u)
  {
    hide Valid, ReadText;
  }

  lemma MessageRoundTrip(item: ThreadItem)
    requires Plainly(item) && (item.UserMessage? || item.AgentMessage? || item.Plan?)
    ensures ReadItem(WriteItem(item)) == Some(item) && StringAt(WriteItem(item), "type") == Some(TypeName(item))
  {
    hide Encoded, ReadTexts, ReadText, WriteText, DecodeList, ReadInput, WriteInput, ValidInput, Valid;
    if item.UserMessage? {
      InputsRoundTrip(item.content);
    } else {
      TextRoundTrip(item.text);
    }
  }

  lemma ReasoningRoundTrip(item: ThreadItem)
    requires item.Reasoning? && Plainly(item)
    ensures ReadItem(WriteItem(item)) == Some(item) && StringAt(WriteItem(item), "type") == Some(TypeName(item))
  {
    hide Encoded, ReadTexts, DecodeList, ReadText, WriteText, Valid;
    TextsRoundTrip(item.summary);
    TextsRoundTrip(item.thoughts);
  }

  lemma OtherRoundTrip(item: ThreadItem)
    requires item.OtherItem? && Plainly(item)
    ensures ReadItem(WriteItem(item)) == Some(item) && StringAt(WriteItem(item), "type") == Some(TypeName(item))
  {
    hide Encoded, ReadTexts, DecodeList, ReadText, WriteText, Valid;
  }

  lemma CommandRoundTrip(item: ThreadItem)
    requires item.CommandExecution? && Plainly(item)
    ensures ReadItem(WriteItem(item)) == Some(item) && StringAt(WriteItem(item), "type") == Some(TypeName(item))
    ensures StringAt(WriteItem(item), "status") == Some(StatusName(item.status))
    ensures Plainly(item.(status := CommandFailed))
  {
    hide Encoded, ReadTexts, DecodeList, ReadText, WriteText, ReadOutput, WriteOutput, Valid;
    OutputRoundTrip(item.output);
  }

  lemma CommandSettled(item: ThreadItem)
    requires item.CommandExecution?
    ensures WriteItem(item).Object?
    ensures Object(WriteItem(item).fields["status" := Str("failed")]) == WriteItem(item.(status := CommandFailed))
  {
    hide WriteOutput;
    assert WriteItem(item).fields["status" := Str("failed")] == WriteItem(item.(status := CommandFailed)).fields;
  }

  lemma OutputRoundTrip(o: Option<Text>)
    ensures ReadOutput(WriteOutput(o)) == o
  {
    if o.Some? {
      TextRoundTrip(o.value);
    }
  }

  lemma ItemRoundTrip(item: ThreadItem)
    requires Plainly(item)
    ensures ReadItem(WriteItem(item)) == Some(item) && StringAt(WriteItem(item), "type") == Some(TypeName(item))
    ensures Reads(ReadItem, item)
  {
    hide WriteItem, ReadItem, Plainly;
    match item
    case UserMessage(_, _) => MessageRoundTrip(item);
    case AgentMessage(_, _, _) => MessageRoundTrip(item);
    case Plan(_, _) => MessageRoundTrip(item);
    case Reasoning(_, _, _) => ReasoningRoundTrip(item);
    case CommandExecution(_, _, _, _) => CommandRoundTrip(item);
    case OtherItem(_, _, _) => OtherRoundTrip(item);
  }

  // ----- The laws -----

  lemma PlainItemLaw(item: ThreadItem)
    requires Plainly(item)
    ensures ItemLaw(Plain(), item)
  {
    hide WriteItem, ReadItem, SupportedType, ValidTexts, ValidInput, TypeName;
    ItemRoundTrip(item);
    if item.UserMessage? {
      MessageHeld(item);
    }
    if item.CommandExecution? {
      CommandRoundTrip(item);
      CommandSettled(item);
      ItemRoundTrip(item.(status := CommandFailed));
    }
  }

  lemma MessageHeld(item: ThreadItem)
    requires Plainly(item) && item.UserMessage?
    ensures forall u :: u in item.content ==> Reads(ReadInput, u)
    ensures forall id: string :: Reads(ReadItem, UserMessage(id, item.content))
  {
    hide WriteItem, ReadItem, ReadInput, WriteInput, ValidInput;
    forall u | u in item.content ensures Reads(ReadInput, u) {
      InputRoundTrip(u);
    }
    forall id: string ensures Reads(ReadItem, UserMessage(id, item.content)) {
      ItemRoundTrip(UserMessage(id, item.content));
    }
  }

  lemma ReadInputValid(v: Value)
    requires ReadInput(v).Some?
    ensures ValidInput(ReadInput(v).value)
  {
    hide Valid, ReadText;
  }

  lemma PlainInputLaw(u: UserInput)
    requires Reads(ReadInput, u)
    ensures InputLaw(Plain(), u) && ValidInput(u)
  {
    hide ReadInput, WriteInput, ValidInput;
    var v :| ReadInput(v) == Some(u);
    ReadInputValid(v);
    InputRoundTrip(u);
  }

  lemma ReadPlainly(item: ThreadItem)
    requires Reads(ReadItem, item)
    ensures Plainly(item)
  {
    hide ReadItem, Plainly;
    var v :| ReadItem(v) == Some(item);
    ReadIsPlain(v);
  }

  lemma PlainStatusLaw(s: ThreadStatus)
    ensures StatusLaw(Plain(), s)
  {
    if s.Active? {
      FlagsRoundTrip(s.flags);
    }
  }

  /** The laws assumed of a codec can be met, all at once. */
  lemma PlainIsLawful()
    ensures Lawful(Plain()) && ReadsCommands(Plain()) && SettlesCommands(Plain())
    ensures ReadsText(Plain()) && TakesText(Plain())
  {
    hide ReadItem, WriteItem, ReadInput, ItemLaw, InputLaw, StatusLaw, SeedState, ReadsCommand, ValidTexts, Plainly,
      SameButText, Reads;
    var c := Plain();
    forall i | Reads(c.decodeItem, i) ensures ItemLaw(c, i) {
      ReadPlainly(i);
      PlainItemLaw(i);
    }
    forall u | Reads(c.decodeInput, u) ensures InputLaw(c, u) {
      PlainInputLaw(u);
    }
    forall s ensures StatusLaw(c, s) {
      PlainStatusLaw(s);
    }
    forall v ensures ReadsCommand(c, v) {
      CommandsRead(v);
    }
    assert ReadsCommands(c);
    forall v | c.decodeItem(v).Some? && c.decodeItem(v).value.CommandExecution? && v.Object?
      ensures c.decodeItem(Object(v.fields["status" := Str("failed")])) ==
              Some(c.decodeItem(v).value.(status := CommandFailed))
    {
      CommandsSettle(v);
    }
    assert SettlesCommands(c);
    forall i | Reads(c.decodeItem, i) ensures ValidTexts(i) {
      ReadPlainly(i);
      PlainlyValid(i);
    }
    forall i, next | Reads(c.decodeItem, i) && SameButText(i, next) && ValidTexts(next)
      ensures Reads(c.decodeItem, next)
    {
      PlainlyTaken(next, i);
      ItemRoundTrip(next);
    }
  }

  lemma PlainlyValid(item: ThreadItem)
    requires Plainly(item)
    ensures ValidTexts(item)
  {
  }

  lemma PlainlyTaken(next: ThreadItem, item: ThreadItem)
    requires SameButText(item, next) && ValidTexts(next)
    ensures Plainly(next)
  {
    hide ValidTexts;
  }

  lemma CommandsSettle(v: Value)
    requires ReadItem(v).Some? && ReadItem(v).value.CommandExecution? && v.Object?
    ensures ReadItem(Object(v.fields["status" := Str("failed")])) ==
            Some(ReadItem(v).value.(status := CommandFailed))
  {
    hide ReadText, ReadTexts, DecodeList, ReadOutput, Valid;
    var v' := Object(v.fields["status" := Str("failed")]);
    assert StringAt(v', "status") == Some("failed") && At(v', "aggregatedOutput") == At(v, "aggregatedOutput");
    forall key | key != "status" ensures StringAt(v', key) == StringAt(v, key) {
    }
  }

  lemma CommandsRead(v: Value)
    ensures ReadsCommand(Plain(), v)
  {
    hide ReadText, ReadTexts, DecodeList, ReadOutput, ValidTexts;
  }

  /** Together with what is true of the Rust types: inputs are valid, only supported kinds are read, one by its id. */
  lemma PlainIsLikeRust()
    ensures forall u :: Reads(Plain().decodeInput, u) ==> ValidInput(u)
    ensures forall i :: Reads(Plain().decodeItem, i) ==> SupportedType(TypeName(i))
    ensures forall i, j | Reads(Plain().decodeItem, i) && Reads(Plain().decodeItem, j) ::
              TypeName(i) == TypeName(j) == "contextCompaction" && i.id == j.id ==> i == j
  {
    hide ReadItem, ReadInput, ValidInput, Reads, ValidTexts, SupportedType;
    forall u | Reads(Plain().decodeInput, u) ensures ValidInput(u) {
      PlainInputLaw(u);
    }
    forall i | Reads(Plain().decodeItem, i) ensures Plainly(i) {
      ReadPlainly(i);
    }
  }
}
