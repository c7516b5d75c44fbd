/**
 * The coding front end's home screen: a task box that opens the specification builder
 * with the query and the chosen repository, a repository picker, the session's status
 * badge, and a "Send" button that turns the last message into a coding conversation.
 */
module HomeWizeCode {
  import opened Wrappers
  import opened JsValues
  import opened JsStrings
  import opened WizeTypes
  import opened WizeTeamsSession
  import opened SpecificationBuilder
  import TaskList

  /** Some task reports the wire status "pending". */
  predicate HasActiveTasks(tasks: seq<Task>) {
    exists i | 0 <= i < |tasks| :: TaskStatusWire(tasks[i].status) == "pending"
  }

  /** `getStatusText`. */
  function StatusText(isCompleted: bool, tasks: seq<Task>): (r: string)
    ensures isCompleted ==> r == "Completed"
    ensures !isCompleted ==> (r == "In Progress" <==> exists i | 0 <= i < |tasks| :: tasks[i].status == Pending)
    ensures !isCompleted && (forall i | 0 <= i < |tasks| :: tasks[i].status != Pending) ==> r == "Processing"
  {
    if isCompleted then "Completed"
    else if HasActiveTasks(tasks) then "In Progress"
    else "Processing"
  }

  /** `getStatusStyles`. */
  function StatusStyles(isCompleted: bool, tasks: seq<Task>): (r: string)
    ensures isCompleted ==> r == "bg-blue-900 text-blue-300"
    ensures !isCompleted ==> (r == "bg-green-900 text-green-300" <==> exists i | 0 <= i < |tasks| :: tasks[i].status == Pending)
    ensures !isCompleted && (forall i | 0 <= i < |tasks| :: tasks[i].status != Pending) ==> r == "bg-yellow-900 text-yellow-300"
  {
    if isCompleted then "bg-blue-900 text-blue-300"
    else if HasActiveTasks(tasks) then "bg-green-900 text-green-300"
    else "bg-yellow-900 text-yellow-300"
  }

  /** Style and text split the states the same way, so the badge's colour always matches its words. */
  lemma StatusStylesMatchText(isCompleted: bool, tasks: seq<Task>)
    ensures StatusStyles(isCompleted, tasks) == "bg-blue-900 text-blue-300" <==> StatusText(isCompleted, tasks) == "Completed"
    ensures StatusStyles(isCompleted, tasks) == "bg-green-900 text-green-300" <==> StatusText(isCompleted, tasks) == "In Progress"
    ensures StatusStyles(isCompleted, tasks) == "bg-yellow-900 text-yellow-300" <==> StatusText(isCompleted, tasks) == "Processing"
  {
  }

  /** A badge reading "In Progress" only appears while the task list shows some task as "In Progress" too. */
  lemma InProgressAgreesWithTaskList(tasks: seq<Task>)
    requires StatusText(false, tasks) == "In Progress"
    ensures exists i | 0 <= i < |tasks| :: TaskList.StatusText(TaskStatusWire(tasks[i].status)) == "In Progress"
  {
    var i :| 0 <= i < |tasks| && tasks[i].status == Pending;
    assert TaskList.StatusText(TaskStatusWire(tasks[i].status)) == "In Progress";
  }

  /** Where submit navigates: the builder screen, with the query and the repository id as text. */
  datatype Navigation = ToSpecificationBuilder(query: string, selectedRepositoryId: Option<string>)

  /** The submit button's `disabled`. */
  predicate SubmitDisabled(inputValue: string, isLoading: bool) {
    isLoading || Trim(inputValue) == ""
  }

  /** What `handleSubmit` navigates to, if anywhere. */
  function SubmitNavigation(inputValue: string, isLoading: bool, selectedRepository: Option<Repository>): (r: Option<Navigation>)
    ensures r.Some? <==> !SubmitDisabled(inputValue, isLoading)
    ensures r.Some? ==> r.value.query == inputValue
    ensures r.Some? ==> (r.value.selectedRepositoryId.Some? <==> selectedRepository.Some?)
    ensures r.Some? && selectedRepository.Some? ==> r.value.selectedRepositoryId == Some(IntToString(selectedRepository.value.id))
  {
    if Trim(inputValue) != "" && !isLoading then
      Some(ToSpecificationBuilder(inputValue,
        if selectedRepository.Some? then Some(IntToString(selectedRepository.value.id)) else None))
    else None
  }

  /** The "Send" button under a completed session: the last message's `message || content || ""`. */
  function FinalMessageRequest(messages: seq<MessageRecord>, selectedRepository: Option<Repository>): (r: Option<ConversationRequest>)
    ensures r.Some? <==> |messages| > 0
    ensures r.Some? ==> StartsWith(r.value.q, SpecificationHeader) && r.value.selectedRepository == selectedRepository
    ensures r.Some? ==> r.value.q == SpecificationHeader + ToJsString(Or(MessageText(messages[|messages| - 1]), JStr("")))
  {
    if |messages| > 0 then
      var specification := Or(MessageText(messages[|messages| - 1]), JStr(""));
      Some(ConversationRequest(SpecificationHeader + ToJsString(specification), selectedRepository))
    else None
  }

  /** This button hands over the same text as the builder's send-to-coder without a session result. */
  lemma FinalMessageAgreesWithBuilder(messages: seq<MessageRecord>, selectedRepository: Option<Repository>, stringify: JsValue -> string)
    ensures FinalMessageRequest(messages, selectedRepository) ==
      match SpecificationText(JNull, messages, stringify)
      case Some(spec) => Some(ConversationRequest(SpecificationHeader + spec, selectedRepository))
      case None => None
  {
  }

  /** The screen: input line, picked repository and its title, and the session hook. */
  class HomeScreen {
    const session: Session
    var inputValue: string
    var selectedRepository: Option<Repository>
    var selectedRepoTitle: Option<string>

    /** The title always belongs to the picked repository. */
    predicate Valid()
      reads this
    {
      (selectedRepository.None? <==> selectedRepoTitle.None?)
      && (selectedRepository.Some? ==> selectedRepoTitle == Some(selectedRepository.value.fullName))
    }

    constructor (teamId: string)
      ensures Valid() && fresh(session) && session.teamId == teamId && session.State() == Initial
      ensures inputValue == "" && selectedRepository.None?
    {
      session := new Session(teamId);
      inputValue := "";
      selectedRepository := None;
      selectedRepoTitle := None;
    }

    /** `handleRepoSelection`: clear on no id or no list, pick on a match, else keep. */
    method HandleRepoSelection(repoId: Option<string>, repositories: Option<seq<Repository>>)
      requires Valid()
      modifies this
      ensures Valid() && inputValue == old(inputValue)
      ensures !TruthyString(repoId) || repositories.None? ==> selectedRepository.None?
      ensures TruthyString(repoId) && repositories.Some? ==>
        selectedRepository == (match RepositoryNamed(repositories.value, repoId.value)
          case Some(repo) => Some(repo)
          case None => old(selectedRepository))
    {
      if !TruthyString(repoId) || repositories.None? {
        selectedRepository := None;
        selectedRepoTitle := None;
        return;
      }
      var repo := RepositoryNamed(repositories.value, repoId.value);
      if repo.Some? {
        selectedRepository := repo;
        selectedRepoTitle := Some(repo.value.fullName);
      }
    }

    /** `handleSubmit`: navigate to the builder, then clear the input. */
    method HandleSubmit() returns (navigation: Option<Navigation>)
      requires Valid()
      modifies this
      ensures Valid() && selectedRepository == old(selectedRepository)
      ensures navigation == SubmitNavigation(old(inputValue), session.isLoading, selectedRepository)
      ensures inputValue == if navigation.Some? then "" else old(inputValue)
    {
      navigation := None;
      if Trim(inputValue) != "" && !session.isLoading {
        navigation := Some(ToSpecificationBuilder(inputValue,
          if selectedRepository.Some? then Some(IntToString(selectedRepository.value.id)) else None));
        inputValue := "";
      }
    }

    /** The "Send" button, present only for a completed session. */
    method SendFinalSpecification() returns (request: Option<ConversationRequest>)
      ensures !session.isCompleted || !TruthyString(session.sessionId) ==> request.None?
      ensures session.isCompleted && TruthyString(session.sessionId) ==>
        request == FinalMessageRequest(session.messages, selectedRepository)
    {
      if !session.isCompleted || !TruthyString(session.sessionId) {
        return None;
      }
      var messages := session.messages;
      request := None;
      if |messages| > 0 {
        var finalMessage := messages[|messages| - 1];
        var specification := Or(MessageText(finalMessage), JStr(""));
        request := Some(ConversationRequest(SpecificationHeader + ToJsString(specification), selectedRepository));
      }
    }
  }
}
