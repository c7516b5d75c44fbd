/**
 * The wire enums and records of the Wize Teams API that the core reads.
 * Each enum carries its wire string and a parser back from it.
 */
module WizeTypes {
  import opened Wrappers
  import opened JsValues

  datatype TaskStatus = Pending | Failed | Done | InProgress | AwaitingUserInput

  function TaskStatusWire(s: TaskStatus): string {
    match s
    case Pending => "pending"
    case Failed => "failed"
    case Done => "done"
    case InProgress => "in_progress"
    case AwaitingUserInput => "awaiting_user_input"
  }

  /** The status a wire string denotes, if it denotes one. */
  function ParseTaskStatus(w: string): (r: Option<TaskStatus>)
    ensures r.Some? ==> TaskStatusWire(r.value) == w
    ensures r.None? ==> forall s: TaskStatus :: TaskStatusWire(s) != w
  {
    if w == "pending" then Some(Pending)
    else if w == "failed" then Some(Failed)
    else if w == "done" then Some(Done)
    else if w == "in_progress" then Some(InProgress)
    else if w == "awaiting_user_input" then Some(AwaitingUserInput)
    else None
  }

  /** The five wire strings are pairwise distinct, so enum to string to enum is the identity. */
  lemma TaskStatusRoundTrip(s: TaskStatus)
    ensures ParseTaskStatus(TaskStatusWire(s)) == Some(s)
    ensures forall t: TaskStatus :: TaskStatusWire(t) == TaskStatusWire(s) ==> t == s
  {
  }

  datatype TaskPriority = High | Medium | Low

  function TaskPriorityWire(p: TaskPriority): string {
    match p
    case High => "high"
    case Medium => "medium"
    case Low => "low"
  }

  const AllTaskPriorities: seq<TaskPriority> := [High, Medium, Low]

  /** Exactly three priorities, with distinct wire strings. */
  lemma TaskPrioritiesAreThree()
    ensures |AllTaskPriorities| == 3
    ensures forall p: TaskPriority :: p in AllTaskPriorities
    ensures forall i, j | 0 <= i < j < 3 :: TaskPriorityWire(AllTaskPriorities[i]) != TaskPriorityWire(AllTaskPriorities[j])
  {
    forall p: TaskPriority ensures p in AllTaskPriorities {
      match p
      case High => assert AllTaskPriorities[0] == p;
      case Medium => assert AllTaskPriorities[1] == p;
      case Low => assert AllTaskPriorities[2] == p;
    }
  }

  datatype RunStatus =
    Created | Active | AwaitingToolResult | AwaitingDelegatedResult | Complete | Error | Stopped

  function RunStatusWire(s: RunStatus): string {
    match s
    case Created => "created"
    case Active => "active"
    case AwaitingToolResult => "awaiting_tool_result"
    case AwaitingDelegatedResult => "awaiting_delegated_result"
    case Complete => "complete"
    case Error => "error"
    case Stopped => "stopped"
  }

  /** The run status a wire string denotes, if it denotes one. */
  function ParseRunStatus(w: string): (r: Option<RunStatus>)
    ensures r.Some? ==> RunStatusWire(r.value) == w
    ensures r.None? ==> forall s: RunStatus :: RunStatusWire(s) != w
  {
    if w == "created" then Some(Created)
    else if w == "active" then Some(Active)
    else if w == "awaiting_tool_result" then Some(AwaitingToolResult)
    else if w == "awaiting_delegated_result" then Some(AwaitingDelegatedResult)
    else if w == "complete" then Some(Complete)
    else if w == "error" then Some(Error)
    else if w == "stopped" then Some(Stopped)
    else None
  }

  const AllRunStatuses: seq<RunStatus> :=
    [Created, Active, AwaitingToolResult, AwaitingDelegatedResult, Complete, Error, Stopped]

  /** Exactly seven run statuses, from "created" to "stopped", with distinct wire strings. */
  lemma RunStatusesAreSeven()
    ensures |AllRunStatuses| == 7
    ensures forall s: RunStatus :: s in AllRunStatuses
    ensures RunStatusWire(AllRunStatuses[0]) == "created" && RunStatusWire(AllRunStatuses[6]) == "stopped"
    ensures forall i, j | 0 <= i < j < 7 :: RunStatusWire(AllRunStatuses[i]) != RunStatusWire(AllRunStatuses[j])
    ensures forall s: RunStatus :: ParseRunStatus(RunStatusWire(s)) == Some(s)
  {
    forall s: RunStatus ensures s in AllRunStatuses {
      match s
      case Created => assert AllRunStatuses[0] == s;
      case Active => assert AllRunStatuses[1] == s;
      case AwaitingToolResult => assert AllRunStatuses[2] == s;
      case AwaitingDelegatedResult => assert AllRunStatuses[3] == s;
      case Complete => assert AllRunStatuses[4] == s;
      case Error => assert AllRunStatuses[5] == s;
      case Stopped => assert AllRunStatuses[6] == s;
    }
  }

  /** The tool types; `AskUser` is the one that asks the human a question. */
  datatype FunctionsType =
    | AskUser | WebhookTrigger | Unknown | CreateAgent | GetAgentData
    | ValidateAgentConfig | ValidateRunAgentConfig | AddTasks | Default

  function FunctionsTypeWire(f: FunctionsType): string {
    match f
    case AskUser => "ask-user"
    case WebhookTrigger => "webhook-trigger"
    case Unknown => "unknown"
    case CreateAgent => "create-agent"
    case GetAgentData => "get-agent-data"
    case ValidateAgentConfig => "validate-agent-config"
    case ValidateRunAgentConfig => "validate-run-agent-config"
    case AddTasks => "add-tasks"
    case Default => "default"
  }

  /** ASK_USER is the wire string "ask-user", and no other tool type has it. */
  lemma AskUserWireIsDistinct()
    ensures FunctionsTypeWire(AskUser) == "ask-user"
    ensures forall f: FunctionsType :: f != AskUser ==> FunctionsTypeWire(f) != "ask-user"
  {
  }

  /** A backlog task. Identity is the numeric id; dependencies are ids of other tasks. */
  datatype Task = Task(
    id: int,
    title: string,
    description: string,
    status: TaskStatus,
    dependencies: seq<int>,
    priority: TaskPriority,
    details: string,
    result: JsValue,
    retryCount: int,
    delegatedToTeamId: Option<string>,
    delegatedSessionId: Option<string>)

  datatype InquiryStatus = InquiryPending | InquiryAnswered

  /** A question raised by an agent; `question` and `status` are optional legacy fields. */
  datatype Inquiry = Inquiry(
    id: string,
    userId: string,
    inquiry: JsValue,
    response: JsValue,
    sessionId: string,
    agentId: string,
    toolName: string,
    toolType: FunctionsType,
    question: Option<string>,
    status: Option<InquiryStatus>)

  /** One entry of a session's message log. */
  datatype MessageRecord = MessageRecord(
    id: string,
    userId: string,
    sessionId: string,
    sender: string,
    message: string,
    agentId: string,
    finishReason: string,
    messageType: Option<string>,
    content: JsValue,
    error: Option<string>)

  /** The two fields of a git repository the screens read. */
  datatype Repository = Repository(id: int, fullName: string)
}
