/**
 * The specification builder screen: starts one Wize Teams session for the query it
 * was opened with, routes each submitted line either to the awaited inquiry or to the
 * session, shows the awaited question, and hands the finished specification to the
 * coding agent as a new conversation.
 */
module SpecificationBuilder {
  import opened Wrappers
  import opened JsValues
  import opened JsStrings
  import opened Seqs
  import opened WizeTypes
  import opened WizeTeamsSession

  // ---------------------------------------------------------------------------
  // Question text of the awaited inquiry

  const DefaultQuestion := "Please provide additional information"

  /** The text shown for the awaited inquiry: the first truthy candidate, in priority order. */
  function QuestionText(inq: Inquiry): (r: JsValue)
    ensures Truthy(r)
    ensures TruthyString(inq.question) ==> r == JStr(inq.question.value)
    ensures !TruthyString(inq.question) && !Truthy(inq.inquiry) ==> r == JStr(DefaultQuestion)
  {
    if TruthyString(inq.question) then JStr(inq.question.value)
    else if Truthy(inq.inquiry) && inq.inquiry.JStr? then inq.inquiry
    else if Truthy(inq.inquiry) && IsTypeofObject(inq.inquiry) && Truthy(Get(inq.inquiry, "question")) then Get(inq.inquiry, "question")
    else if Truthy(inq.inquiry) && IsTypeofObject(inq.inquiry) && Truthy(Get(inq.inquiry, "message")) then Get(inq.inquiry, "message")
    else if Truthy(inq.inquiry) && IsTypeofObject(inq.inquiry) && Truthy(Get(inq.inquiry, "text")) then Get(inq.inquiry, "text")
    else if Truthy(inq.inquiry) && IsTypeofObject(inq.inquiry) && Truthy(Get(inq.inquiry, "prompt")) then Get(inq.inquiry, "prompt")
    else JStr(DefaultQuestion)
  }

  /** The first truthy value of `candidates`, or `fallback`. */
  function FirstTruthy(candidates: seq<JsValue>, fallback: JsValue): (r: JsValue)
    ensures r == fallback || r in candidates
    ensures forall i | 0 <= i < |candidates| :: Truthy(candidates[i]) ==> Truthy(r)
    ensures r != fallback ==> Truthy(r)
  {
    if candidates == [] then fallback
    else if Truthy(candidates[0]) then candidates[0]
    else FirstTruthy(candidates[1..], fallback)
  }

  /** The candidates in priority order: `question`, a string `inquiry`, then four fields of an object `inquiry`. */
  function QuestionCandidates(inq: Inquiry): seq<JsValue> {
    var q := if inq.question.Some? then JStr(inq.question.value) else JUndefined;
    var asString := if inq.inquiry.JStr? then inq.inquiry else JUndefined;
    [q, asString, ObjectField(inq.inquiry, "question"), ObjectField(inq.inquiry, "message"),
     ObjectField(inq.inquiry, "text"), ObjectField(inq.inquiry, "prompt")]
  }

  /** `v.name` guarded by `typeof v === 'object'`. */
  function ObjectField(v: JsValue, name: string): JsValue {
    if IsTypeofObject(v) then Get(v, name) else JUndefined
  }

  /** Each test of the if-chain is the truthiness of one candidate. */
  lemma QuestionTextByCandidates(inq: Inquiry)
    ensures var c, fb := QuestionCandidates(inq), JStr(DefaultQuestion);
      QuestionText(inq) ==
        if Truthy(c[0]) then c[0] else if Truthy(c[1]) then c[1] else if Truthy(c[2]) then c[2]
        else if Truthy(c[3]) then c[3] else if Truthy(c[4]) then c[4] else if Truthy(c[5]) then c[5] else fb
  {
  }

  /** `FirstTruthy` over a non-empty list looks at its head first. */
  lemma FirstTruthyCons(c: seq<JsValue>, k: nat, fb: JsValue)
    requires k < |c|
    ensures FirstTruthy(c[k..], fb) == if Truthy(c[k]) then c[k] else FirstTruthy(c[k + 1..], fb)
  {
    assert c[k..][1..] == c[k + 1..];
  }

  /** The if-chain is the first-truthy rule over the six candidates, with the standard fallback. */
  lemma QuestionTextIsFirstTruthy(inq: Inquiry)
    ensures QuestionText(inq) == FirstTruthy(QuestionCandidates(inq), JStr(DefaultQuestion))
  {
    var c, fb := QuestionCandidates(inq), JStr(DefaultQuestion);
    assert c[6..] == [] && c[0..] == c;
    FirstTruthyCons(c, 5, fb);
    FirstTruthyCons(c, 4, fb);
    FirstTruthyCons(c, 3, fb);
    FirstTruthyCons(c, 2, fb);
    FirstTruthyCons(c, 1, fb);
    FirstTruthyCons(c, 0, fb);
    QuestionTextByCandidates(inq);
  }

  /** An inquiry whose payload is a plain string shows that string, unless it carries a legacy `question`. */
  lemma StringInquiryShown(inq: Inquiry)
    requires !TruthyString(inq.question) && inq.inquiry.JStr? && inq.inquiry.s != ""
    ensures QuestionText(inq) == inq.inquiry
  {
  }

  // ---------------------------------------------------------------------------
  // Sending

  /** `canSendMessage`: not loading, and either no session yet or the session waits for the user. */
  function CanSendMessage(s: SessionState): (r: bool)
    ensures r ==> !s.isLoading
    ensures !TruthyString(s.sessionId) ==> (r <==> !s.isLoading)
    ensures TruthyString(s.sessionId) ==> (r <==> !s.isLoading && s.isAwaitingUserInput)
  {
    !s.isLoading && (!TruthyString(s.sessionId) || s.isAwaitingUserInput)
  }

  /** The send button's `disabled`. */
  predicate SendDisabled(userInput: string, s: SessionState) {
    Trim(userInput) == "" || s.isLoading || !CanSendMessage(s)
  }

  /** The button is disabled exactly for blank input, while loading, or while a session runs without waiting for the user. */
  lemma SendDisabledIff(userInput: string, s: SessionState)
    ensures SendDisabled(userInput, s) <==>
      (forall k | 0 <= k < |userInput| :: IsJsWhitespace(userInput[k])) || s.isLoading
      || (TruthyString(s.sessionId) && !s.isAwaitingUserInput)
  {
    TrimEmptyIffBlank(userInput);
  }

  /** "Waiting for AI team to complete current tasks...". */
  predicate ShowWaitingHint(s: SessionState) {
    !CanSendMessage(s) && TruthyString(s.sessionId) && !s.isAwaitingUserInput && !s.isCompleted
  }

  /** The hint shows exactly while a session is open, neither waiting for the user nor completed. */
  lemma WaitingHintIff(s: SessionState)
    ensures ShowWaitingHint(s) <==> TruthyString(s.sessionId) && !s.isAwaitingUserInput && !s.isCompleted
  {
  }

  /** What `handleSubmit` does. */
  datatype SubmitAction =
    | Ignored
    | ReplyToInquiry(inquiryId: string, text: string)
    | ContinueWith(sessionId: string, text: string)
    | ClearOnly

  /** The dispatch of `handleSubmit`: the awaited inquiry wins over the session; the untrimmed text is sent. */
  function SubmitDispatch(userInput: string, s: SessionState): (r: SubmitAction)
    ensures r.Ignored? <==> Trim(userInput) == "" || s.isLoading
    ensures r.ReplyToInquiry? <==> !r.Ignored? && s.pendingInquiry.Some?
    ensures r.ReplyToInquiry? ==> r == ReplyToInquiry(s.pendingInquiry.value.id, userInput)
    ensures r.ContinueWith? ==> TruthyString(s.sessionId) && r == ContinueWith(s.sessionId.value, userInput) && s.pendingInquiry.None?
    ensures r.ClearOnly? ==> s.pendingInquiry.None? && !TruthyString(s.sessionId)
  {
    if Trim(userInput) == "" || s.isLoading then Ignored
    else if s.pendingInquiry.Some? then ReplyToInquiry(s.pendingInquiry.value.id, userInput)
    else if TruthyString(s.sessionId) then ContinueWith(s.sessionId.value, userInput)
    else ClearOnly
  }

  /** An enabled button always acts; with a session open it can only answer the awaited inquiry. */
  lemma EnabledSubmitReplies(userInput: string, s: SessionState)
    requires Consistent(s) && !SendDisabled(userInput, s)
    ensures !SubmitDispatch(userInput, s).Ignored?
    ensures TruthyString(s.sessionId) ==> SubmitDispatch(userInput, s) == ReplyToInquiry(s.pendingInquiry.value.id, userInput)
    ensures !TruthyString(s.sessionId) && s.pendingInquiry.None? ==> SubmitDispatch(userInput, s) == ClearOnly
  {
  }

  /** Continuing the session is dispatched only in states where the send button is disabled. */
  lemma ContinueOnlyWhileDisabled(userInput: string, s: SessionState)
    requires Consistent(s) && SubmitDispatch(userInput, s).ContinueWith?
    ensures SendDisabled(userInput, s)
  {
  }

  // ---------------------------------------------------------------------------
  // Send to coder

  const SpecificationHeader := "Generated specification:\n\n"

  /** The request that creates the coding conversation. */
  datatype ConversationRequest = ConversationRequest(q: string, selectedRepository: Option<Repository>)

  /**
   * The specification handed over: a truthy `sessionResult.result` (JSON for objects,
   * `String` otherwise), else the last message's `message || content || ""`, else none.
   */
  function SpecificationText(sessionResult: JsValue, messages: seq<MessageRecord>, stringify: JsValue -> string): (r: Option<string>)
    ensures Truthy(Get(sessionResult, "result")) ==> r.Some? && (var res := Get(sessionResult, "result");
      r.value == if IsTypeofObject(res) then stringify(res) else ToJsString(res))
    ensures !Truthy(Get(sessionResult, "result")) ==> (r.Some? <==> |messages| > 0)
    ensures !Truthy(Get(sessionResult, "result")) && |messages| > 0 && messages[|messages| - 1].message != "" ==>
      r == Some(messages[|messages| - 1].message)
    ensures !Truthy(Get(sessionResult, "result")) && |messages| > 0 && messages[|messages| - 1].message == "" ==>
      r == Some(if Truthy(messages[|messages| - 1].content) then ToJsString(messages[|messages| - 1].content) else "")
  {
    var res := Get(sessionResult, "result");
    if Truthy(sessionResult) && Truthy(res) then
      Some(if IsTypeofObject(res) then stringify(res) else ToJsString(res))
    else if |messages| > 0 then
      Some(ToJsString(Or(MessageText(messages[|messages| - 1]), JStr(""))))
    else None
  }

  /**
   * After a Complete tick that fell back to the last message, send-to-coder hands over
   * the JSON of the `{specification}` wrapper, not the message text itself.
   */
  lemma SendAfterMessageFallback(s: SessionState, a: TickAnswers, stringify: JsValue -> string)
    requires Consistent(s)
    requires a.snapshot.Ok? && a.snapshot.value.status == Complete && a.teamSession.Ok? && !Truthy(a.teamSession.value)
    requires |a.resultMessages| > 0 && Truthy(MessageText(a.resultMessages[|a.resultMessages| - 1]))
    ensures var r := TickStep(s, a); var text := MessageText(a.resultMessages[|a.resultMessages| - 1]);
      r.isCompleted && SpecificationText(r.sessionResult, r.messages, stringify) == Some(stringify(JObj(map["specification" := text])))
  {
  }

  // ---------------------------------------------------------------------------
  // Repository selection

  /** The repository whose id reads `repoId`, as `find(r => r.id.toString() === repoId)` picks it. */
  function RepositoryNamed(repositories: seq<Repository>, repoId: string): (r: Option<Repository>)
    ensures r.Some? ==> r.value in repositories && IntToString(r.value.id) == repoId
    ensures r.None? ==> forall i | 0 <= i < |repositories| :: IntToString(repositories[i].id) != repoId
  {
    Find(repositories, (r: Repository) => IntToString(r.id) == repoId)
  }

  /** The id passed along on navigation finds the same repository again, provided ids are distinct. */
  lemma RepositoryIdRoundTrip(repositories: seq<Repository>, i: nat)
    requires i < |repositories|
    requires forall j, k | 0 <= j < k < |repositories| :: repositories[j].id != repositories[k].id
    ensures RepositoryNamed(repositories, IntToString(repositories[i].id)) == Some(repositories[i])
  {
    var r := RepositoryNamed(repositories, IntToString(repositories[i].id));
    var j :| 0 <= j < |repositories| && repositories[j] == r.value;
    IntToStringInjective(r.value.id, repositories[i].id);
  }

  /** The screen: the session hook, the input line, the started flag and the chosen repository. */
  class Screen {
    const query: Option<string>
    const session: Session
    var userInput: string
    var sessionStarted: bool
    var selectedRepository: Option<Repository>
    /** How often the start effect has called `startSession`. */
    ghost var startCalls: nat

    ghost predicate Valid()
      reads this, session
    {
      session.Valid() && startCalls == if sessionStarted then 1 else 0
    }

    constructor (query: Option<string>, teamId: string)
      ensures Valid() && fresh(session)
      ensures this.query == query && session.teamId == teamId && session.State() == Initial
      ensures userInput == "" && !sessionStarted && selectedRepository.None? && startCalls == 0
    {
      this.query := query;
      session := new Session(teamId);
      userInput := "";
      sessionStarted := false;
      selectedRepository := None;
      startCalls := 0;
    }

    /** The start effect: start once, for a query, with no session, not loading. */
    method StartEffect(answer: Answer<string>) returns (call: Option<GatewayCall>)
      requires Valid()
      modifies this, session
      ensures Valid() && startCalls <= 1
      ensures var fires := TruthyString(query) && !TruthyString(old(session.sessionId)) && !old(sessionStarted) && !old(session.isLoading);
        && sessionStarted == (old(sessionStarted) || fires)
        && startCalls == old(startCalls) + (if fires then 1 else 0)
        && session.State() == (if fires then StartStep(old(session.State()), answer) else old(session.State()))
        && call == (if fires then Some(CreateTeamSession(session.teamId, query.value)) else None)
      ensures userInput == old(userInput) && selectedRepository == old(selectedRepository)
    {
      call := None;
      if TruthyString(query) && !TruthyString(session.sessionId) && !sessionStarted && !session.isLoading {
        sessionStarted := true;
        startCalls := startCalls + 1;
        var c := session.StartSession(query.value, answer);
        call := Some(c);
      }
    }

    /** The repository effect: adopt the repository named by the route's id once the list is loaded; never clear. */
    method SelectRepositoryEffect(repositories: Option<seq<Repository>>, selectedRepositoryId: Option<string>)
      requires Valid()
      modifies this
      ensures Valid()
      ensures repositories.Some? && TruthyString(selectedRepositoryId) ==>
        selectedRepository == (match RepositoryNamed(repositories.value, selectedRepositoryId.value)
          case Some(repo) => Some(repo)
          case None => old(selectedRepository))
      ensures repositories.None? || !TruthyString(selectedRepositoryId) ==> selectedRepository == old(selectedRepository)
      ensures userInput == old(userInput) && sessionStarted == old(sessionStarted) && startCalls == old(startCalls)
    {
      if repositories.Some? && TruthyString(selectedRepositoryId) {
        var repo := RepositoryNamed(repositories.value, selectedRepositoryId.value);
        if repo.Some? {
          selectedRepository := repo;
        }
      }
    }

    /** `handleSubmit`; `answer` is the gateway's reply to the request it sends, if any. */
    method HandleSubmit(answer: Answer<()>) returns (call: Option<GatewayCall>)
      requires Valid()
      modifies this, session
      ensures Valid()
      ensures var action := SubmitDispatch(old(userInput), old(session.State()));
        && userInput == (if action.Ignored? then old(userInput) else "")
        && session.State() == (match action
            case ReplyToInquiry(_, _) => ReplyStep(old(session.State()), answer)
            case ContinueWith(sid, _) => ContinueStep(old(session.State()), sid, answer)
            case _ => old(session.State()))
        && call == (match action
            case ReplyToInquiry(id, text) => Some(UpdateInquiryResponse(id, text))
            case ContinueWith(sid, text) => Some(ContinueTeamSession(session.teamId, sid, text))
            case _ => None)
      ensures sessionStarted == old(sessionStarted) && startCalls == old(startCalls)
      ensures selectedRepository == old(selectedRepository)
    {
      call := None;
      var action := SubmitDispatch(userInput, session.State());
      match action {
        case Ignored =>
          return;
        case ReplyToInquiry(id, text) =>
          var c := session.ContinueSessionAfterUserReply(id, text, answer);
          call := Some(c);
        case ContinueWith(sid, text) =>
          var c := session.ContinueSession(sid, text, answer);
          call := Some(c);
        case ClearOnly =>
      }
      userInput := "";
    }

    /** `handleSendToCoder`: nothing unless completed with a session; otherwise the request for the coding conversation. */
    method HandleSendToCoder(stringify: JsValue -> string) returns (request: Option<ConversationRequest>)
      ensures !session.isCompleted || !TruthyString(session.sessionId) ==> request.None?
      ensures session.isCompleted && TruthyString(session.sessionId) ==>
        request == (match SpecificationText(session.sessionResult, session.messages, stringify)
          case Some(spec) => Some(ConversationRequest(SpecificationHeader + spec, selectedRepository))
          case None => None)
    {
      if !session.isCompleted || !TruthyString(session.sessionId) {
        return None;
      }
      var sessionResult := session.sessionResult;
      if Truthy(sessionResult) && Truthy(Get(sessionResult, "result")) {
        var specification := "";
        var result := Get(sessionResult, "result");
        if IsTypeofObject(result) {
          specification := stringify(result);
        } else {
          specification := ToJsString(result);
        }
        return Some(ConversationRequest(SpecificationHeader + specification, selectedRepository));
      }
      var messages := session.messages;
      if |messages| > 0 {
        var finalMessage := messages[|messages| - 1];
        var specification := Or(MessageText(finalMessage), JStr(""));
        request := Some(ConversationRequest(SpecificationHeader + ToJsString(specification), selectedRepository));
      } else {
        request := None;
      }
    }
  }
}
