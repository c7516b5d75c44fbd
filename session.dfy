/**
 * The Wize Teams session controller (`useWizeTeamsSession`): the state the specification
 * builder shows, and the four operations that change it. Every gateway request an
 * operation issues is returned as a `GatewayCall`, and the gateway's reply is a
 * parameter (`Answer`), so the model does no I/O. The `setInterval` polling timer is
 * `pollingTimer`, the session id the armed interval polls, or `None` when disarmed.
 */
module WizeTeamsSession {
  import opened Wrappers
  import opened JsValues
  import opened WizeTypes
  import opened Seqs

  /** A rejected gateway promise. */
  datatype GatewayError = GatewayError(message: string)

  /** The settled outcome of one gateway request. */
  datatype Answer<T> = Ok(value: T) | Rejected(error: GatewayError)

  /** The requests the controller sends; their replies come back as `Answer`s. */
  datatype GatewayCall =
    | CreateTeamSession(teamId: string, message: string)
    | ContinueTeamSession(teamId: string, sessionId: string, message: string)
    | GetTeamSessionResults(sessionId: string)
    | GetTeamSession(sessionId: string)
    | GetSessionMessages(sessionId: string)
    | GetSessionInquiries(sessionId: string)
    | UpdateInquiryResponse(inquiryId: string, response: string)

  /** The fields of `TeamSessionResults` the tick reads. */
  datatype Snapshot = Snapshot(
    results: seq<Task>,
    status: RunStatus,
    completed: bool,
    toolTypeCalled: Option<FunctionsType>)

  /**
   * The replies to the requests of one tick, each consulted only on the path that
   * issues it. `teamSession` is the reply of `getTeamSession`, reduced to its `result`
   * field (null when there is no session). Message fetches cannot fail: the client
   * turns their errors into an empty list. `now` is the ISO time stamp of the tick.
   */
  datatype TickAnswers = TickAnswers(
    snapshot: Answer<Snapshot>,
    teamSession: Answer<JsValue>,
    resultMessages: seq<MessageRecord>,
    inquiries: Answer<seq<Inquiry>>,
    messages: seq<MessageRecord>,
    now: string)

  /** The hook's state fields, with the polling timer as the id it polls. */
  datatype SessionState = SessionState(
    sessionId: Option<string>,
    tasks: seq<Task>,
    messages: seq<MessageRecord>,
    sessionResult: JsValue,
    pendingInquiry: Option<Inquiry>,
    isLoading: bool,
    isCompleted: bool,
    isAwaitingUserInput: bool,
    error: Option<GatewayError>,
    pollingTimer: Option<string>)

  const Initial := SessionState(None, [], [], JNull, None, false, false, false, None, None)

  /** Awaiting input always comes with the inquiry that is awaited. */
  predicate Consistent(s: SessionState) {
    s.isAwaitingUserInput ==> s.pendingInquiry.Some?
  }

  /** `message.message || message.content`. */
  function MessageText(m: MessageRecord): (r: JsValue)
    ensures m.message != "" ==> r == JStr(m.message)
    ensures m.message == "" ==> r == m.content
  {
    Or(JStr(m.message), m.content)
  }

  /** The inquiry the user is asked to answer: an unanswered one, raised by ASK_USER or while ASK_USER ran. */
  predicate NeedsUserAnswer(q: Inquiry, toolTypeCalled: Option<FunctionsType>) {
    (q.toolType == AskUser || toolTypeCalled == Some(AskUser)) && !Truthy(q.response)
  }

  /** `inquiries.find(...)`: the first inquiry needing an answer. */
  function PendingInquiryOf(inquiries: seq<Inquiry>, toolTypeCalled: Option<FunctionsType>): Option<Inquiry> {
    Find(inquiries, (q: Inquiry) => NeedsUserAnswer(q, toolTypeCalled))
  }

  /** The record `{result, summary, completedAt}` the tick stores. */
  function ResultRecord(result: JsValue, summary: string, completedAt: string): JsValue {
    JObj(map["result" := result, "summary" := JStr(summary), "completedAt" := JStr(completedAt)])
  }

  /**
   * The session result after a Complete snapshot: the team session's own result if it
   * is truthy, else the specification text of the last message, else the old value.
   */
  function CompletionResult(previous: JsValue, teamResult: JsValue, resultMessages: seq<MessageRecord>, now: string): JsValue {
    if Truthy(teamResult) then ResultRecord(teamResult, "Task completed successfully", now)
    else if |resultMessages| > 0 && Truthy(MessageText(resultMessages[|resultMessages| - 1])) then
      var text := MessageText(resultMessages[|resultMessages| - 1]);
      ResultRecord(JObj(map["specification" := text]), "Specification generated successfully", now)
    else previous
  }

  /** `startSession`: reset, then on success remember the id and arm a timer polling it. */
  function StartStep(s: SessionState, answer: Answer<string>): SessionState {
    var busy := s.(isLoading := true, error := None, isCompleted := false, tasks := [], messages := []);
    match answer
    case Ok(id) => busy.(sessionId := Some(id), pollingTimer := Some(id))
    case Rejected(e) => busy.(error := Some(e), isLoading := false)
  }

  /** `continueSession`: on success arm a timer polling `sid` unless one is armed. */
  function ContinueStep(s: SessionState, sid: string, answer: Answer<()>): SessionState {
    var busy := s.(isLoading := true);
    match answer
    case Ok(_) => if busy.pollingTimer.None? then busy.(pollingTimer := Some(sid)) else busy
    case Rejected(e) => busy.(error := Some(e), isLoading := false)
  }

  /** `continueSessionAfterUserReply`: on success forget the inquiry and arm a timer if none is armed and there is a session. */
  function ReplyStep(s: SessionState, answer: Answer<()>): SessionState {
    var busy := s.(isLoading := true);
    match answer
    case Ok(_) =>
      var cleared := busy.(pendingInquiry := None, isAwaitingUserInput := false);
      if cleared.pollingTimer.None? && TruthyString(cleared.sessionId) then cleared.(pollingTimer := cleared.sessionId)
      else cleared
    case Rejected(e) => busy.(error := Some(e), isLoading := false)
  }

  /** `fetchSessionData`: one poll tick, stopping at the first rejected request. */
  function TickStep(s: SessionState, a: TickAnswers): SessionState {
    match a.snapshot
    case Rejected(e) => s.(error := Some(e), isLoading := false)
    case Ok(snap) =>
      var s1 := s.(tasks := snap.results);
      if snap.status == Complete && a.teamSession.Rejected? then
        s1.(error := Some(a.teamSession.error), isLoading := false)
      else
        SettleStep(ObserveStep(s1, snap, a), snap, a)
  }

  /** The middle of a tick: store the result of a Complete run, then mark a finished run completed. */
  function ObserveStep(s: SessionState, snap: Snapshot, a: TickAnswers): SessionState
    requires snap.status == Complete ==> a.teamSession.Ok?
  {
    FinishStep(
      if snap.status == Complete
      then s.(sessionResult := CompletionResult(s.sessionResult, a.teamSession.value, a.resultMessages, a.now))
      else s,
      snap)
  }

  /** A completed or Complete run stops polling and no longer awaits input. */
  function FinishStep(s: SessionState, snap: Snapshot): SessionState {
    if snap.completed || snap.status == Complete
    then s.(isCompleted := true, isAwaitingUserInput := false, pollingTimer := None)
    else s
  }

  /** The end of a tick: look for an inquiry while a tool result is awaited, then take the messages. */
  function SettleStep(s: SessionState, snap: Snapshot, a: TickAnswers): SessionState {
    if snap.status == AwaitingToolResult then
      match a.inquiries
      case Rejected(e) => s.(error := Some(e), isLoading := false)
      case Ok(inquiries) =>
        var p := PendingInquiryOf(inquiries, snap.toolTypeCalled);
        s.(pendingInquiry := p, isAwaitingUserInput := p.Some?, messages := a.messages, isLoading := false)
    else
      s.(pendingInquiry := None, isAwaitingUserInput := false, messages := a.messages, isLoading := false)
  }

  /** Every request of the tick reached its reply without a rejection. */
  predicate TickSucceeds(a: TickAnswers) {
    a.snapshot.Ok?
    && (a.snapshot.value.status == Complete ==> a.teamSession.Ok?)
    && (a.snapshot.value.status == AwaitingToolResult ==> a.inquiries.Ok?)
  }

  /** The requests one tick sends, in order. */
  function TickCalls(sid: string, a: TickAnswers): seq<GatewayCall> {
    match a.snapshot
    case Rejected(_) => [GetTeamSessionResults(sid)]
    case Ok(snap) =>
      var asked := if snap.status == Complete
        then [GetTeamSessionResults(sid)] + [GetTeamSession(sid)]
        else [GetTeamSessionResults(sid)];
      if snap.status == Complete && a.teamSession.Rejected? then asked
      else asked + ObserveCalls(sid, snap, a) + SettleCalls(sid, snap, a)
  }

  /** The requests of the middle of a tick: the messages, when a Complete run has no result of its own. */
  function ObserveCalls(sid: string, snap: Snapshot, a: TickAnswers): seq<GatewayCall>
    requires snap.status == Complete ==> a.teamSession.Ok?
  {
    if snap.status == Complete && !Truthy(a.teamSession.value) then [GetSessionMessages(sid)] else []
  }

  /** The requests of the end of a tick. */
  function SettleCalls(sid: string, snap: Snapshot, a: TickAnswers): seq<GatewayCall> {
    if snap.status == AwaitingToolResult then
      [GetSessionInquiries(sid)] +
      match a.inquiries
      case Rejected(_) => []
      case Ok(_) => [GetSessionMessages(sid)]
    else [GetSessionMessages(sid)]
  }

  /** The hook itself: its state fields, plus the team it was created for. */
  class Session {
    const teamId: string
    var sessionId: Option<string>
    var tasks: seq<Task>
    var messages: seq<MessageRecord>
    var sessionResult: JsValue
    var pendingInquiry: Option<Inquiry>
    var isLoading: bool
    var isCompleted: bool
    var isAwaitingUserInput: bool
    var error: Option<GatewayError>
    var pollingTimer: Option<string>

    function State(): SessionState
      reads this
    {
      SessionState(sessionId, tasks, messages, sessionResult, pendingInquiry,
                   isLoading, isCompleted, isAwaitingUserInput, error, pollingTimer)
    }

    predicate Valid()
      reads this
    {
      Consistent(State())
    }

    constructor (teamId: string)
      ensures this.teamId == teamId && State() == Initial && Valid()
    {
      this.teamId := teamId;
      sessionId, tasks, messages, sessionResult, pendingInquiry := None, [], [], JNull, None;
      isLoading, isCompleted, isAwaitingUserInput, error, pollingTimer := false, false, false, None, None;
    }

    /** `startSession(message)`; `answer` is the reply to `createTeamSession`. */
    method StartSession(message: string, answer: Answer<string>) returns (call: GatewayCall)
      requires Valid()
      modifies this
      ensures Valid()
      ensures call == CreateTeamSession(teamId, message)
      ensures State() == StartStep(old(State()), answer)
    {
      isLoading := true;
      error := None;
      isCompleted := false;
      tasks := [];
      messages := [];
      call := CreateTeamSession(teamId, message);
      match answer {
        case Ok(newSessionId) =>
          sessionId := Some(newSessionId);
          pollingTimer := Some(newSessionId);
        case Rejected(e) =>
          error := Some(e);
          isLoading := false;
      }
    }

    /** `continueSession(sid, message)`; `answer` is the reply to the continue request. */
    method ContinueSession(sid: string, message: string, answer: Answer<()>) returns (call: GatewayCall)
      requires Valid()
      modifies this
      ensures Valid()
      ensures call == ContinueTeamSession(teamId, sid, message)
      ensures State() == ContinueStep(old(State()), sid, answer)
    {
      isLoading := true;
      call := ContinueTeamSession(teamId, sid, message);
      match answer {
        case Ok(_) =>
          if pollingTimer.None? {
            pollingTimer := Some(sid);
          }
        case Rejected(e) =>
          error := Some(e);
          isLoading := false;
      }
    }

    /** The part of a Complete tick that stores the session result. */
    method RecordCompletion(teamResult: JsValue, sessionMessages: seq<MessageRecord>, now: string)
      modifies this
      ensures State() == old(State()).(sessionResult := CompletionResult(old(sessionResult), teamResult, sessionMessages, now))
    {
      if Truthy(teamResult) {
        sessionResult := ResultRecord(teamResult, "Task completed successfully", now);
      } else if |sessionMessages| > 0 {
        var lastMessage := sessionMessages[|sessionMessages| - 1];
        if Truthy(MessageText(lastMessage)) {
          sessionResult := ResultRecord(JObj(map["specification" := MessageText(lastMessage)]),
                                        "Specification generated successfully", now);
        }
      }
    }

    /** The middle of a tick: the Complete result, then the completed flags. */
    method ObserveTick(sid: string, results: Snapshot, a: TickAnswers) returns (calls: seq<GatewayCall>)
      requires results.status == Complete ==> a.teamSession.Ok?
      modifies this
      ensures State() == ObserveStep(old(State()), results, a)
      ensures calls == ObserveCalls(sid, results, a)
    {
      calls := [];
      if results.status == Complete {
        if !Truthy(a.teamSession.value) {
          calls := [GetSessionMessages(sid)];
        }
        RecordCompletion(a.teamSession.value, a.resultMessages, a.now);
      }
      ghost var recorded := State();
      FinishTick(results);
      assert State() == FinishStep(recorded, results);
    }

    /** The completed flags of a tick. */
    method FinishTick(results: Snapshot)
      modifies this
      ensures State() == FinishStep(old(State()), results)
    {
      if results.completed || results.status == Complete {
        isCompleted := true;
        isAwaitingUserInput := false;
        pollingTimer := None;
      }
    }

    /** `fetchSessionData(sid)`: one tick of the armed interval. */
    method FetchSessionData(sid: string, a: TickAnswers) returns (calls: seq<GatewayCall>)
      requires Valid()
      modifies this
      ensures Valid()
      ensures calls == TickCalls(sid, a)
      ensures State() == TickStep(old(State()), a)
    {
      calls := [GetTeamSessionResults(sid)];
      if a.snapshot.Rejected? {
        error := Some(a.snapshot.error);
        isLoading := false;
        return;
      }
      var results := a.snapshot.value;
      tasks := results.results;
      if results.status == Complete {
        calls := calls + [GetTeamSession(sid)];
        if a.teamSession.Rejected? {
          error := Some(a.teamSession.error);
          isLoading := false;
          return;
        }
      }
      ghost var fetched := State();
      var observeCalls := ObserveTick(sid, results, a);
      calls := calls + observeCalls;
      ghost var observed := State();
      var settleCalls := SettleTick(sid, results, a);
      calls := calls + settleCalls;
      assert observed == ObserveStep(fetched, results, a);
      assert State() == SettleStep(observed, results, a);
    }

    /** The end of a tick: the inquiry lookup while a tool result is awaited, then the messages. */
    method SettleTick(sid: string, results: Snapshot, a: TickAnswers) returns (calls: seq<GatewayCall>)
      modifies this
      ensures State() == SettleStep(old(State()), results, a)
      ensures calls == SettleCalls(sid, results, a)
    {
      calls := [];
      if results.status == AwaitingToolResult {
        calls := [GetSessionInquiries(sid)];
        if a.inquiries.Rejected? {
          error := Some(a.inquiries.error);
          isLoading := false;
          return;
        }
        var found := PendingInquiryOf(a.inquiries.value, results.toolTypeCalled);
        pendingInquiry := found;
        isAwaitingUserInput := found.Some?;
      } else {
        pendingInquiry := None;
        isAwaitingUserInput := false;
      }
      calls := calls + [GetSessionMessages(sid)];
      messages := a.messages;
      isLoading := false;
    }

    /** `continueSessionAfterUserReply(inquiryId, message)`; `answer` is the reply to the inquiry update. */
    method ContinueSessionAfterUserReply(inquiryId: string, message: string, answer: Answer<()>) returns (call: GatewayCall)
      requires Valid()
      modifies this
      ensures Valid()
      ensures call == UpdateInquiryResponse(inquiryId, message)
      ensures State() == ReplyStep(old(State()), answer)
    {
      isLoading := true;
      call := UpdateInquiryResponse(inquiryId, message);
      match answer {
        case Ok(_) =>
          pendingInquiry := None;
          isAwaitingUserInput := false;
          if pollingTimer.None? && TruthyString(sessionId) {
            pollingTimer := sessionId;
          }
        case Rejected(e) =>
          error := Some(e);
          isLoading := false;
      }
    }
  }

  // ---------------------------------------------------------------------------
  // Properties of the operations

  /** Every operation keeps `Consistent`. */
  lemma ConsistentPreserved(s: SessionState, sid: string, start: Answer<string>, cont: Answer<()>, a: TickAnswers)
    requires Consistent(s)
    ensures Consistent(StartStep(s, start))
    ensures Consistent(ContinueStep(s, sid, cont))
    ensures Consistent(ReplyStep(s, cont))
    ensures Consistent(TickStep(s, a))
  {
    TickKeepsConsistent(s, a);
  }

  /** A poll keeps `Consistent`: it either leaves the inquiry flags alone or settles them together. */
  lemma TickKeepsConsistent(s: SessionState, a: TickAnswers)
    requires Consistent(s)
    ensures Consistent(TickStep(s, a))
  {
    match a.snapshot
    case Rejected(_) =>
    case Ok(snap) =>
      if !(snap.status == Complete && a.teamSession.Rejected?) {
        var observed := ObserveStep(s.(tasks := snap.results), snap, a);
        ObserveKeepsConsistent(s.(tasks := snap.results), snap, a);
        SettleKeepsConsistent(observed, snap, a);
      }
  }

  lemma ObserveKeepsConsistent(s: SessionState, snap: Snapshot, a: TickAnswers)
    requires Consistent(s) && (snap.status == Complete ==> a.teamSession.Ok?)
    ensures Consistent(ObserveStep(s, snap, a))
  {
  }

  lemma SettleKeepsConsistent(s: SessionState, snap: Snapshot, a: TickAnswers)
    requires Consistent(s)
    ensures Consistent(SettleStep(s, snap, a))
  {
  }

  /** `startSession` resets loading, error, completion, tasks and log, and nothing else before the request. */
  lemma StartResets(s: SessionState, answer: Answer<string>)
    ensures var r := StartStep(s, answer);
      && r.tasks == [] && r.messages == [] && !r.isCompleted
      && r.sessionResult == s.sessionResult
      && r.pendingInquiry == s.pendingInquiry
      && r.isAwaitingUserInput == s.isAwaitingUserInput
  {
  }

  /** On success the new id is stored and polled; on failure the old id and timer stay. */
  lemma StartOutcome(s: SessionState, answer: Answer<string>)
    ensures var r := StartStep(s, answer);
      answer.Ok? ==> r.sessionId == Some(answer.value) && r.pollingTimer == Some(answer.value) && r.isLoading && r.error == None
    ensures var r := StartStep(s, answer);
      answer.Rejected? ==> r.error == Some(answer.error) && !r.isLoading && r.sessionId == s.sessionId && r.pollingTimer == s.pollingTimer
  {
  }

  /** Continue and reply arm a timer only when none is armed; an armed timer is never replaced. */
  lemma NoSecondTimer(s: SessionState, sid: string, answer: Answer<()>)
    ensures ContinueStep(s, sid, answer).pollingTimer ==
      if s.pollingTimer.None? && answer.Ok? then Some(sid) else s.pollingTimer
    ensures ReplyStep(s, answer).pollingTimer ==
      if s.pollingTimer.None? && answer.Ok? && TruthyString(s.sessionId) then s.sessionId else s.pollingTimer
    ensures s.pollingTimer.Some? ==>
      ContinueStep(s, sid, answer).pollingTimer == s.pollingTimer && ReplyStep(s, answer).pollingTimer == s.pollingTimer
  {
  }

  /** The reply clears the awaited inquiry only once the gateway accepted the answer. */
  lemma ReplyClearsOnlyOnSuccess(s: SessionState, answer: Answer<()>)
    ensures var r := ReplyStep(s, answer);
      answer.Ok? ==> r.pendingInquiry.None? && !r.isAwaitingUserInput && r.isLoading
    ensures var r := ReplyStep(s, answer);
      answer.Rejected? ==> (r.pendingInquiry == s.pendingInquiry && r.isAwaitingUserInput == s.isAwaitingUserInput
        && r.error == Some(answer.error) && !r.isLoading)
  {
  }

  /** The first request of every tick is the snapshot; the roster is replaced before anything else can fail. */
  lemma TickReplacesTasksFirst(s: SessionState, sid: string, a: TickAnswers)
    ensures TickCalls(sid, a)[0] == GetTeamSessionResults(sid)
    ensures a.snapshot.Ok? ==> TickStep(s, a).tasks == a.snapshot.value.results
    ensures a.snapshot.Rejected? ==>
      TickStep(s, a) == s.(error := Some(a.snapshot.error), isLoading := false) && TickCalls(sid, a) == [GetTeamSessionResults(sid)]
  {
  }

  /** A rejection after the snapshot keeps the new roster, sets the error, clears loading and leaves the timer alone. */
  lemma TickLaterFailure(s: SessionState, sid: string, a: TickAnswers)
    requires a.snapshot.Ok? && !TickSucceeds(a)
    ensures var r := TickStep(s, a);
      && r.tasks == a.snapshot.value.results
      && r.error.Some? && !r.isLoading
      && r.messages == s.messages
      && r.pendingInquiry == s.pendingInquiry
    ensures a.snapshot.value.status == Complete ==>
      TickStep(s, a).pollingTimer == s.pollingTimer && TickStep(s, a).error == Some(a.teamSession.error)
      && TickStep(s, a).isCompleted == s.isCompleted
    ensures a.snapshot.value.status == AwaitingToolResult ==>
      TickStep(s, a).pollingTimer == (if a.snapshot.value.completed then None else s.pollingTimer)
      && TickStep(s, a).error == Some(a.inquiries.error)
  {
  }

  /** A tick never clears an error: a successful one keeps it, a failing one replaces it. */
  lemma TickErrorSticky(s: SessionState, a: TickAnswers)
    ensures TickSucceeds(a) ==> TickStep(s, a).error == s.error && TickStep(s, a).messages == a.messages && !TickStep(s, a).isLoading
    ensures !TickSucceeds(a) ==> TickStep(s, a).error.Some? && !TickStep(s, a).isLoading
  {
  }

  /** Completion: the flag or a Complete status marks the session done, stops waiting and disarms the timer. */
  lemma TickCompletion(s: SessionState, a: TickAnswers)
    requires a.snapshot.Ok?
    requires a.snapshot.value.completed || a.snapshot.value.status == Complete
    requires !(a.snapshot.value.status == Complete && a.teamSession.Rejected?)
    ensures TickStep(s, a).isCompleted
    ensures TickStep(s, a).pollingTimer.None?
    ensures a.snapshot.value.status != AwaitingToolResult ==> !TickStep(s, a).isAwaitingUserInput
  {
  }

  /** Without the flag or a Complete status the tick leaves completion and the timer as they were. */
  lemma TickNoCompletion(s: SessionState, a: TickAnswers)
    requires a.snapshot.Ok? && !a.snapshot.value.completed && a.snapshot.value.status != Complete
    ensures TickStep(s, a).isCompleted == s.isCompleted
    ensures TickStep(s, a).pollingTimer == s.pollingTimer
    ensures TickStep(s, a).sessionResult == s.sessionResult
  {
  }

  /** Awaiting a tool result: the awaited inquiry is the first unanswered ASK_USER match, and the flag says whether one exists. */
  lemma {:induction false} TickInquirySelection(s: SessionState, a: TickAnswers)
    requires a.snapshot.Ok? && a.snapshot.value.status == AwaitingToolResult && a.inquiries.Ok?
    ensures var r := TickStep(s, a); var qs := a.inquiries.value; var ttc := a.snapshot.value.toolTypeCalled;
      && (r.isAwaitingUserInput <==> exists j | 0 <= j < |qs| :: NeedsUserAnswer(qs[j], ttc))
      && (r.pendingInquiry.Some? <==> r.isAwaitingUserInput)
      && (r.pendingInquiry.Some? ==> (NeedsUserAnswer(r.pendingInquiry.value, ttc)
           && exists j | 0 <= j < |qs| :: qs[j] == r.pendingInquiry.value && forall k | 0 <= k < j :: !NeedsUserAnswer(qs[k], ttc)))
  {
    var qs := a.inquiries.value;
    var ttc := a.snapshot.value.toolTypeCalled;
    var p := (q: Inquiry) => NeedsUserAnswer(q, ttc);
    var found := Find(qs, p);
    assert found == PendingInquiryOf(qs, ttc);
    assert forall j | 0 <= j < |qs| :: p(qs[j]) == NeedsUserAnswer(qs[j], ttc);
  }

  /** Any other status, once the tick gets that far, clears the awaited inquiry and the flag. */
  lemma TickOtherStatusClears(s: SessionState, a: TickAnswers)
    requires a.snapshot.Ok? && a.snapshot.value.status != AwaitingToolResult
    requires !(a.snapshot.value.status == Complete && a.teamSession.Rejected?)
    ensures TickStep(s, a).pendingInquiry.None? && !TickStep(s, a).isAwaitingUserInput
  {
  }

  /** Result on Complete: the team session's result first, then the last message's text, else unchanged. */
  lemma TickResultFallback(s: SessionState, a: TickAnswers)
    requires a.snapshot.Ok? && a.snapshot.value.status == Complete && a.teamSession.Ok?
    ensures var r := TickStep(s, a); var v := a.teamSession.value;
      Truthy(v) ==> (Get(r.sessionResult, "result") == v
        && Get(r.sessionResult, "summary") == JStr("Task completed successfully")
        && Get(r.sessionResult, "completedAt") == JStr(a.now))
    ensures var r := TickStep(s, a); var v := a.teamSession.value; var ms := a.resultMessages;
      !Truthy(v) && |ms| > 0 && Truthy(MessageText(ms[|ms| - 1])) ==>
        (Get(Get(r.sessionResult, "result"), "specification") == MessageText(ms[|ms| - 1])
        && Get(r.sessionResult, "summary") == JStr("Specification generated successfully"))
    ensures var r := TickStep(s, a); var v := a.teamSession.value; var ms := a.resultMessages;
      !Truthy(v) && (|ms| == 0 || !Truthy(MessageText(ms[|ms| - 1]))) ==> r.sessionResult == s.sessionResult
    ensures var r := TickStep(s, a); var v := a.teamSession.value; var ms := a.resultMessages;
      Truthy(v) || (|ms| > 0 && Truthy(MessageText(ms[|ms| - 1]))) ==> Truthy(r.sessionResult) && OwnKeyCount(r.sessionResult) == 3
  {
    TickStoresCompletion(s, a);
    var v, ms := a.teamSession.value, a.resultMessages;
    if Truthy(v) {
      ResultRecordFields(v, "Task completed successfully", a.now);
    } else if |ms| > 0 && Truthy(MessageText(ms[|ms| - 1])) {
      var text := MessageText(ms[|ms| - 1]);
      ResultRecordFields(JObj(map["specification" := text]), "Specification generated successfully", a.now);
    }
  }

  /** A tick that reaches a Complete result stores `CompletionResult`. */
  lemma TickStoresCompletion(s: SessionState, a: TickAnswers)
    requires a.snapshot.Ok? && a.snapshot.value.status == Complete && a.teamSession.Ok?
    ensures TickStep(s, a).sessionResult == CompletionResult(s.sessionResult, a.teamSession.value, a.resultMessages, a.now)
  {
  }

  /** The stored record has exactly its three fields. */
  lemma ResultRecordFields(result: JsValue, summary: string, completedAt: string)
    ensures var r := ResultRecord(result, summary, completedAt);
      && Get(r, "result") == result && Get(r, "summary") == JStr(summary) && Get(r, "completedAt") == JStr(completedAt)
      && Truthy(r) && OwnKeyCount(r) == 3
  {
    var m := map["result" := result, "summary" := JStr(summary), "completedAt" := JStr(completedAt)];
    assert m.Keys == {"result", "summary", "completedAt"};
  }

  /** The messages of the completion fallback are fetched exactly when the team session has no truthy result. */
  lemma TickCallsOnComplete(sid: string, a: TickAnswers)
    requires a.snapshot.Ok? && a.snapshot.value.status == Complete
    ensures GetSessionInquiries(sid) !in TickCalls(sid, a)
    ensures a.teamSession.Rejected? ==> TickCalls(sid, a) == [GetTeamSessionResults(sid), GetTeamSession(sid)]
    ensures a.teamSession.Ok? ==> |TickCalls(sid, a)| == if Truthy(a.teamSession.value) then 3 else 4
  {
  }

  /** Inquiries are fetched exactly when the snapshot says a tool result is awaited. */
  lemma TickFetchesInquiriesIffAwaiting(sid: string, a: TickAnswers)
    ensures GetSessionInquiries(sid) in TickCalls(sid, a) <==> a.snapshot.Ok? && a.snapshot.value.status == AwaitingToolResult
    ensures GetTeamSession(sid) in TickCalls(sid, a) <==> a.snapshot.Ok? && a.snapshot.value.status == Complete
    ensures TickCalls(sid, a)[|TickCalls(sid, a)| - 1] == GetSessionMessages(sid) <==> TickSucceeds(a)
  {
  }

  /**
   * The completed flag together with an AwaitingToolResult status and a rejected
   * inquiry fetch leaves a stale awaited inquiry behind while the flag is cleared.
   */
  lemma StaleInquiryAfterFailedInquiryFetch(s: SessionState, q: Inquiry, e: GatewayError, a: TickAnswers)
    requires s.pendingInquiry == Some(q) && s.isAwaitingUserInput
    requires a.snapshot == Ok(Snapshot([], AwaitingToolResult, true, None)) && a.inquiries == Rejected(e)
    ensures TickStep(s, a).pendingInquiry == Some(q)
    ensures !TickStep(s, a).isAwaitingUserInput && TickStep(s, a).isCompleted
  {
  }

  /** The completed flag with an AwaitingToolResult status and an open ASK_USER inquiry: completed and awaiting at once. */
  lemma CompletedAndAwaiting(s: SessionState, q: Inquiry, a: TickAnswers)
    requires q.toolType == AskUser && q.response == JNull
    requires a.snapshot == Ok(Snapshot([], AwaitingToolResult, true, None)) && a.inquiries == Ok([q])
    ensures TickStep(s, a).isCompleted && TickStep(s, a).isAwaitingUserInput
    ensures TickStep(s, a).pendingInquiry == Some(q)
  {
    assert NeedsUserAnswer([q][0], None);
  }
}
