/**
  The typed conversation that both sides of the synchronisation speak about, down to the
  fields that projection, seeding and diffing read. Text is its UTF-8 bytes.
 */
module Thread {
  import opened Wrappers
  import opened Utf8

  type Text = seq<byte>

  /** One part of a user's message; what is not text is carried as an uninterpreted payload. */
  datatype UserInput = TextInput(text: Text) | OtherInput(payload: string)

  datatype CommandStatus = CommandInProgress | CommandCompleted | CommandFailed | CommandDeclined

  /** `rest` stands for the fields of a variant that nothing here reads. */
  datatype ThreadItem =
    | UserMessage(id: string, content: seq<UserInput>)
    | AgentMessage(id: string, text: Text, rest: string)
    | Plan(id: string, text: Text)
    | Reasoning(id: string, summary: seq<Text>, thoughts: seq<Text>)
    | CommandExecution(id: string, status: CommandStatus, output: Option<Text>, rest: string)
    | OtherItem(id: string, kind: string, rest: string)

  predicate AllValid(texts: seq<Text>) {
    forall t :: t in texts ==> Valid(t)
  }

  /** The texts of an item are Rust strings, so valid UTF-8. */
  predicate ValidTexts(item: ThreadItem) {
    match item
    case AgentMessage(_, text, _) => Valid(text)
    case Plan(_, text) => Valid(text)
    case Reasoning(_, summary, thoughts) => AllValid(summary) && AllValid(thoughts)
    case CommandExecution(_, _, output, _) => output.Some? ==> Valid(output.value)
    case _ => true
  }

  /** Two items of a kind that has texts, alike in everything else. */
  predicate SameButText(a: ThreadItem, b: ThreadItem) {
    a.id == b.id &&
    match (a, b)
    case (AgentMessage(_, _, r), AgentMessage(_, _, s)) => r == s
    case (Plan(_, _), Plan(_, _)) => true
    case (Reasoning(_, _, _), Reasoning(_, _, _)) => true
    case (CommandExecution(_, t, _, r), CommandExecution(_, u, _, s)) => t == u && r == s
    case _ => false
  }

  datatype TurnStatus = Completed | Interrupted | Failed | InProgress

  datatype TurnError = TurnError(message: string)

  datatype Turn = Turn(id: string, items: seq<ThreadItem>, status: TurnStatus, error: Option<TurnError>)

  ghost predicate AllTextsValid(turns: seq<Turn>) {
    forall t, i :: t in turns && i in t.items ==> ValidTexts(i)
  }

  datatype ActiveFlag = WaitingOnApproval | WaitingOnUserInput

  datatype ThreadStatus = NotLoaded | Idle | SystemError | Active(flags: seq<ActiveFlag>)

  datatype Thread = Thread(id: string, status: ThreadStatus, turns: seq<Turn>)

  /** A question the agent is waiting on: an approval or a request for user input. */
  datatype PendingRequest = PendingRequest(id: string, requestMethod: string)

  datatype Projection = Projection(
    thread: Thread,
    activeTurnId: Option<string>,
    pendingApprovals: seq<PendingRequest>,
    pendingUserInputs: seq<PendingRequest>)

  /** The first turn with the given id. */
  function FindTurn(turns: seq<Turn>, id: string): (r: Option<Turn>)
    ensures r.Some? ==> r.value in turns && r.value.id == id
    ensures r.None? <==> forall t :: t in turns ==> t.id != id
  {
    if turns == [] then None
    else if turns[0].id == id then Some(turns[0])
    else FindTurn(turns[1..], id)
  }
}
