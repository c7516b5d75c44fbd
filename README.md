# Wize Teams specification builder — a Dafny model

This project models the client-side core of the "Wize Teams" specification-builder flow in the
OpenHands frontends (`frontend/` and its fork `frontend-wize-code/`). A user types a query. The
builder screen then works as follows:

- It starts a remote team session and polls it on a timer.
- Each poll mirrors the session's task roster and message log.
- It detects completion and stores a result.
- When the team asks the user a question (an ASK_USER inquiry), it selects the pending inquiry. The
  user's answer is routed to that inquiry rather than to the session.
- When the session is done, the last specification is handed to the coding agent as a new conversation.

Around this loop sit several smaller pieces:

- the timeline display: message de-duplication, sender labels, the task-result title and the
  empty/loading choice, in both frontends;
- the task list: status and priority colours, and single-row expansion;
- the two home screens: submit guards, session status text, repository selection and conversation labels;
- the cookie helpers behind the sign-in guard.

Modules, one per source file, plus shared modules for JavaScript semantics:

| module | file | models |
|---|---|---|
| `WizeTeamsSession` | `session.dfy` | the `useWizeTeamsSession` hook as class `Session`. Every method is tied to a pure step function on `SessionState` (`StartStep`, `ContinueStep`, `ReplyStep`, `TickStep`), and the lemmas are stated about those functions |
| `MessageDedup` | `message_dedup.dfy` | `deduplicateMessages`, which is the same in both frontends: the reference definition `Dedup` and the loop `DeduplicateMessages` |
| `ConversationView` | `conversation_view.dfy` | `hasSessionResult`, the empty/loading choice, `isFinalSpecification` and the send-to-coder button, all shared by both frontends |
| `ConversationDisplay` | `conversation_display.dfy` | the `frontend/` timeline: task-result title regex, sender label, entries, "Final Results" content |
| `ConversationDisplayWizeCode` | `conversation_display_wize_code.dfy` | the `frontend-wize-code/` timeline: a label without the "System" case, and the "Results" block |
| `SpecificationBuilder` | `spec_builder.dfy` | the builder screen as class `Screen`: start-once effect, repository effect, submit dispatch, `canSendMessage`, question text, send-to-coder |
| `HomeFrontend`, `HomeWizeCode` | `home_frontend.dfy`, `home_wize_code.dfy` | the two home screens |
| `TaskList` | `task_list.dfy` | the task list component |
| `WizeTypes` | `wize_types.dfy` | the enums and records of `wize-teams.types.ts` |
| `SessionToken`, `AuthCheck` | `session_token.dfy`, `auth_check.dfy` | `getCookie`, `getSessionToken`, `deleteCookies`, `hasRefreshToken`, `checkAuth` |
| `JsValues`, `JsStrings`, `Seqs`, `Wrappers` | | JavaScript values and truthiness, `String(...)`, `split`/`trim`/`indexOf`/`startsWith`/`includes`, `find`, `reverse`, `Option` |

Network calls, timers and browser effects are parameters or returned values:

- **Gateway answers.** Every gateway call's answer is an `Answer<T>` parameter, either `Ok(value)`
  or `Rejected(error)`. Methods return the calls they make (`GatewayCall`), so the call order can be
  stated.
- **Timer.** The polling timer is `pollingTimer: Option<string>`: the session id the armed interval
  polls, or `None` when no interval is armed.
- **Opaque library functions.** `JSON.stringify` and `encodeURIComponent` are function parameters.
  The clock value `new Date().toISOString()` is the string parameter `now`.
- **Browser effects.** Cookie writes, toasts and redirects are returned as values.

Where descriptions of this system and its code differ, the model follows the code:

- the pending inquiry is the first match in list order, not the most recent;
- only `Complete` (or the `completed` flag) ends polling, and `Error` and `Stopped` are polled like
  any other status;
- there is no stop operation, no narrated task or inquiry entries, no optimistic user entries and no
  immediate poll after a reply.

## Model

| member | source | states |
|---|---|---|
| WizeTeamsSession.Session.constructor | frontend/src/hooks/use-wize-teams-session.ts:29-41 | the hook starts with no session, empty tasks and messages, an empty result, no inquiry, all flags false, no error and no timer |
| WizeTeamsSession.Session.StartSession | frontend/src/hooks/use-wize-teams-session.ts:44-67 | issues `createTeamSession(teamId, message)`, and the new state is `StartStep` of the old state and the answer |
| WizeTeamsSession.StartResets | frontend/src/hooks/use-wize-teams-session.ts:46-50 | starting clears tasks, messages and the completed flag, and leaves `sessionResult`, `pendingInquiry` and the awaiting flag as they were |
| WizeTeamsSession.StartOutcome | frontend/src/hooks/use-wize-teams-session.ts:53-66 | on success the session id becomes the new id, a timer for that id is armed, loading stays on and the error is cleared; on failure the error is set, loading is off, and the session id and timer are unchanged |
| WizeTeamsSession.Session.ContinueSession | frontend/src/hooks/use-wize-teams-session.ts:70-90 | issues `continueSession(teamId, sid, message)`, and the new state is `ContinueStep` |
| WizeTeamsSession.Session.ContinueSessionAfterUserReply | frontend/src/hooks/use-wize-teams-session.ts:197-221 | issues `continueSessionAfterUserReply(inquiryId, message)`, and the new state is `ReplyStep` |
| WizeTeamsSession.NoSecondTimer | frontend/src/hooks/use-wize-teams-session.ts:78-85 | continue arms a timer for `sid` exactly when none is armed and the call succeeds; reply arms one for the current session id only when none is armed, the call succeeds and a session id is set; an armed timer is never replaced |
| WizeTeamsSession.ReplyClearsOnlyOnSuccess | frontend/src/hooks/use-wize-teams-session.ts:202-220 | a successful reply clears the pending inquiry and the awaiting flag; a failed one keeps both, sets the error and clears loading |
| WizeTeamsSession.Session.FetchSessionData | frontend/src/hooks/use-wize-teams-session.ts:93-194 | one poll tick: the gateway calls it makes equal `TickCalls` and the new state is `TickStep`, built from the smaller methods `ObserveTick`, `FinishTick`, `RecordCompletion` and `SettleTick` |
| WizeTeamsSession.Session.RecordCompletion | frontend/src/hooks/use-wize-teams-session.ts:109-138 | only `sessionResult` changes, and it becomes `CompletionResult` of the previous result, the team session's result, the message log and the clock |
| WizeTeamsSession.Session.FinishTick | frontend/src/hooks/use-wize-teams-session.ts:141-152 | the state becomes `FinishStep`: completed, not awaiting and disarmed when the snapshot is completed or Complete, otherwise unchanged |
| WizeTeamsSession.Session.SettleTick | frontend/src/hooks/use-wize-teams-session.ts:154-193 | the state becomes `SettleStep` and the calls are `SettleCalls`, covering inquiry selection, the message log and loading |
| WizeTeamsSession.Session.ObserveTick | frontend/src/hooks/use-wize-teams-session.ts:101-152 | the state becomes `ObserveStep` (result, then completion) and the calls are `ObserveCalls` |
| WizeTeamsSession.TickReplacesTasksFirst | frontend/src/hooks/use-wize-teams-session.ts:96-99 | the first call of every tick fetches the snapshot; a fetched snapshot replaces the task roster; a failed fetch only sets the error and clears loading, and makes no other call |
| WizeTeamsSession.TickLaterFailure | frontend/src/hooks/use-wize-teams-session.ts:99-193 | when the snapshot arrives but a later call fails, the new roster stays, the error is set, loading is off, and messages and the pending inquiry remain. A failed team-session fetch keeps the timer and completed flag. A failed inquiry fetch disarms the timer only when the snapshot said completed |
| WizeTeamsSession.TickErrorSticky | frontend/src/hooks/use-wize-teams-session.ts:184-193 | a tick whose calls all succeed keeps the previous error, stores the fetched message log and clears loading; a failing tick sets an error and clears loading |
| WizeTeamsSession.TickCompletion | frontend/src/hooks/use-wize-teams-session.ts:141-152 | when the snapshot is completed or Complete and the tick gets that far, the session is completed, the timer is disarmed, and awaiting is off unless the status is AwaitingToolResult |
| WizeTeamsSession.TickNoCompletion | frontend/src/hooks/use-wize-teams-session.ts:101-152 | a snapshot that is neither completed nor Complete leaves the completed flag, the timer and the result unchanged |
| WizeTeamsSession.TickInquirySelection | frontend/src/hooks/use-wize-teams-session.ts:155-177 | with AwaitingToolResult, awaiting holds iff some unanswered inquiry is of type ASK_USER or the snapshot's called tool is ASK_USER; the pending inquiry exists iff awaiting holds, and it is the first such inquiry in list order |
| WizeTeamsSession.TickOtherStatusClears | frontend/src/hooks/use-wize-teams-session.ts:178-182 | any other status clears the pending inquiry and the awaiting flag |
| WizeTeamsSession.TickResultFallback | frontend/src/hooks/use-wize-teams-session.ts:110-137 | on Complete: a truthy team result is stored with summary "Task completed successfully" and the clock; otherwise a truthy `message \|\| content` of the last logged message is stored as `{specification}` with summary "Specification generated successfully"; otherwise the result is unchanged. A stored record is truthy and has three keys |
| WizeTeamsSession.TickStoresCompletion | frontend/src/hooks/use-wize-teams-session.ts:102-139 | on a Complete tick the stored result is exactly `CompletionResult` |
| WizeTeamsSession.ResultRecordFields | frontend/src/hooks/use-wize-teams-session.ts:110-132 | the built result record has `result`, `summary` and `completedAt` as given, is truthy and has exactly three own keys |
| WizeTeamsSession.TickCallsOnComplete | frontend/src/hooks/use-wize-teams-session.ts:102-139 | a Complete tick never fetches inquiries; it stops after the team-session fetch if that fails; otherwise it makes three calls when the team result is truthy and four when it falls back to the message log |
| WizeTeamsSession.TickFetchesInquiriesIffAwaiting | frontend/src/hooks/use-wize-teams-session.ts:102-186 | inquiries are fetched iff the status is AwaitingToolResult; the team session is fetched iff the status is Complete; the tick ends with the message-log fetch iff none of its calls failed |
| WizeTeamsSession.ConsistentPreserved | frontend/src/hooks/use-wize-teams-session.ts:44-221 | every operation keeps the invariant that the awaiting flag implies a pending inquiry |
| WizeTeamsSession.StaleInquiryAfterFailedInquiryFetch | frontend/src/hooks/use-wize-teams-session.ts:141-193 | a completed snapshot whose inquiry fetch fails clears the awaiting flag but leaves the old pending inquiry in place, so the converse of the invariant does not hold |
| WizeTeamsSession.CompletedAndAwaiting | frontend/src/hooks/use-wize-teams-session.ts:141-177 | a snapshot with `completed` set and status AwaitingToolResult leaves the session both completed and awaiting input |
| WizeTeamsSession.MessageText | frontend/src/hooks/use-wize-teams-session.ts:129 | `message \|\| content`: the message when it is non-empty, the content otherwise |
| MessageDedup.DeduplicateMessages | frontend/src/components/features/wize-teams/conversation-display.tsx:200-218 | the reverse scan into a first-seen map, followed by the second reverse, yields exactly `Dedup(messages)` |
| MessageDedup.ReverseKeepFirstReverse | frontend-wize-code/src/components/features/wize-teams/conversation-display.tsx:55-73 | reversing, keeping each key's first occurrence and reversing back equals `Dedup` |
| MessageDedup.DedupUnique | frontend/src/components/features/wize-teams/conversation-display.tsx:206-214 | no two output entries share the key `sender + "-" + message` |
| MessageDedup.DedupKeys | frontend/src/components/features/wize-teams/conversation-display.tsx:204-213 | the output has exactly the keys of the input |
| MessageDedup.DedupKeepsLast | frontend/src/components/features/wize-teams/conversation-display.tsx:204-213 | every output entry is the last occurrence of its key in the input |
| MessageDedup.DedupOrderedByLastOccurrence | frontend-wize-code/src/components/features/wize-teams/conversation-display.tsx:59-72 | output entries are in increasing order of their keys' last positions in the input |
| MessageDedup.DedupSubsequence | frontend/src/components/features/wize-teams/conversation-display.tsx:206-217 | the output is a subsequence of the input and no longer than it |
| MessageDedup.DedupIdempotent | frontend-wize-code/src/components/features/wize-teams/conversation-display.tsx:55-73 | de-duplicating twice equals de-duplicating once, and the empty list maps to the empty list |
| MessageDedup.DedupOfUnique | frontend/src/components/features/wize-teams/conversation-display.tsx:200-218 | a list whose keys are already distinct is returned unchanged |
| MessageDedup.LastIndexIsLast | frontend/src/components/features/wize-teams/conversation-display.tsx:206-213 | no entry after a key's last index has that key |
| ConversationView.KeyMergesConcatenationCollisions | frontend/src/components/features/wize-teams/conversation-display.tsx:208 | the key is a concatenation, so the distinct pairs ("a-b", "c") and ("a", "b-c") collide and only the later one survives |
| ConversationView.HasSessionResult | frontend-wize-code/src/components/features/wize-teams/conversation-display.tsx:23 | true only for a truthy result; for an object, true iff it has an own key; false for null and undefined |
| ConversationView.SelectView | frontend-wize-code/src/components/features/wize-teams/conversation-display.tsx:28-45 | the skeleton is shown iff loading with no messages and no result; "No conversation yet" iff not loading with neither; the timeline otherwise |
| ConversationView.NoFinalAfterDuplicateRemoved | frontend/src/components/features/wize-teams/conversation-display.tsx:193-196 | once any duplicate was removed, no displayed entry is the final specification, because the index points into the shorter list |
| ConversationView.IsFinalSpecification | frontend/src/components/features/wize-teams/conversation-display.tsx:193-196 | final iff the session is completed, the sender is not `user` and the index is the last of a non-empty original list; frontend-wize-code/src/components/features/wize-teams/conversation-display.tsx:48-51 is the same test |
| ConversationView.FinalIsLastWithoutDuplicates | frontend/src/components/features/wize-teams/conversation-display.tsx:193-196 | without duplicates, only the last entry can be final, and it is final iff the session is completed and its sender is not `user` |
| ConversationView.SendToCoderOnlyInTimeline | frontend-wize-code/src/components/features/wize-teams/conversation-display.tsx:158 | whenever the send-to-coder button is shown, the timeline view is the one rendered |
| ConversationDisplay.LineLength | frontend/src/components/features/wize-teams/conversation-display.tsx:235 | counts the run of non-line-terminator characters that `.` matches, ending at the first line terminator |
| ConversationDisplay.TitleCapture | frontend/src/components/features/wize-teams/conversation-display.tsx:235 | the capture of `/^Task completed: (.+?)\n/` is the only match length when one exists, and no match length exists when it is absent |
| ConversationDisplay.TitleMatchUnique | frontend/src/components/features/wize-teams/conversation-display.tsx:235 | the regex match, when it exists, has a single possible capture length |
| ConversationDisplay.FirstLineOfMatch | frontend/src/components/features/wize-teams/conversation-display.tsx:235 | a match's capture is exactly the first line after the prefix |
| ConversationDisplay.TaskResultTitle | frontend/src/components/features/wize-teams/conversation-display.tsx:235-236 | the title is the prefix plus the capture when the regex matches, and "Task completed" when it does not |
| ConversationDisplay.TitleOfFirstLine | frontend/src/components/features/wize-teams/conversation-display.tsx:235-236 | "Task completed: Build API\nDetails" gets the title "Task completed: Build API" |
| ConversationDisplay.PlainTitleExamples | frontend/src/components/features/wize-teams/conversation-display.tsx:235-236 | an empty capture, a missing newline and a `\r\n` line end all give the plain title |
| ConversationDisplay.SenderLabel | frontend/src/components/features/wize-teams/conversation-display.tsx:265-271 | the label is never empty, and it is "You" exactly for `user` senders or for an agent that calls itself "You" |
| ConversationDisplayWizeCode.SenderLabel | frontend-wize-code/src/components/features/wize-teams/conversation-display.tsx:101-105 | for non-user senders the label is "Final Specification" when final, else `agentId`, else "AI Team" |
| ConversationDisplayWizeCode.LabelsAgreeExceptSystem | frontend-wize-code/src/components/features/wize-teams/conversation-display.tsx:101-105 | both frontends label every non-system sender alike; for `system` one says "System" and the other falls through to the final/agent/"AI Team" choice |
| ConversationDisplay.Timeline | frontend/src/components/features/wize-teams/conversation-display.tsx:221-294 | one entry per de-duplicated message |
| ConversationDisplay.TimelineLabels | frontend/src/components/features/wize-teams/conversation-display.tsx:231-289 | entries are task-result cards exactly for `task-result` messages; user messages are "You" bubbles showing `message \|\| content`; once a duplicate was removed every entry is drawn as not final |
| ConversationDisplayWizeCode.Timeline | frontend-wize-code/src/components/features/wize-teams/conversation-display.tsx:75-117 | one bubble per de-duplicated message |
| ConversationDisplayWizeCode.TimelinesAgree | frontend-wize-code/src/components/features/wize-teams/conversation-display.tsx:75-117 | both timelines have the same length and draw the same bubble for every non-system, non-task-result message |
| ConversationDisplay.FinalResultsContent | frontend/src/components/features/wize-teams/conversation-display.tsx:297-303 | the "Final Results" card shows `sessionResult.result` when it is truthy, else the whole result |
| ConversationDisplayWizeCode.ResultsBlock | frontend-wize-code/src/components/features/wize-teams/conversation-display.tsx:120-155 | the result is listed field by field iff it is truthy and of type object; otherwise the JSON text of `result \|\| sessionResult` is shown |
| SpecificationBuilder.QuestionText | frontend/src/routes/specification-builder.tsx:190-225 | the text is always truthy: the question when it is truthy, the fallback "Please provide additional information" when neither question nor payload is truthy |
| SpecificationBuilder.QuestionTextIsFirstTruthy | frontend/src/routes/specification-builder.tsx:190-225 | the text is the first truthy candidate in the order `question`, string payload, then the payload's `question`, `message`, `text`, `prompt`, else the fallback |
| SpecificationBuilder.QuestionTextByCandidates | frontend/src/routes/specification-builder.tsx:190-225 | the same order, written out case by case |
| SpecificationBuilder.FirstTruthy | frontend/src/routes/specification-builder.tsx:190-225 | the result is the fallback or a candidate, it is truthy when any candidate is, and it is truthy whenever it is not the fallback |
| SpecificationBuilder.StringInquiryShown | frontend/src/routes/specification-builder.tsx:197-200 | with no question, a non-empty string payload is shown as is |
| SpecificationBuilder.SendDisabledIff | frontend/src/routes/specification-builder.tsx:138-258 | the send button is disabled iff the input is all whitespace, or the hook is loading, or a session exists that is not awaiting input |
| SpecificationBuilder.WaitingHintIff | frontend/src/routes/specification-builder.tsx:264-268 | the waiting hint shows iff a session exists that is neither awaiting input nor completed |
| SpecificationBuilder.SubmitDispatch | frontend/src/routes/specification-builder.tsx:70-82 | a submit is ignored iff the input is blank or loading; otherwise it replies to the pending inquiry if there is one, else continues a set session, else only clears |
| SpecificationBuilder.EnabledSubmitReplies | frontend/src/routes/specification-builder.tsx:70-258 | while the button is enabled, a submit on an existing session always replies to the inquiry, and one with neither session nor inquiry only clears |
| SpecificationBuilder.ContinueOnlyWhileDisabled | frontend/src/routes/specification-builder.tsx:76-258 | the `continueSession` branch can run only when the button is disabled, for example through Enter |
| SpecificationBuilder.Screen.constructor | frontend/src/routes/specification-builder.tsx:20-55 | the screen starts with empty input, the started flag off, no repository and a fresh hook |
| SpecificationBuilder.Screen.StartEffect | frontend/src/routes/specification-builder.tsx:57-67 | starts only for a query, with no session, the flag unset and not loading; it sets the flag first, and `startSession` is called at most once |
| SpecificationBuilder.Screen.SelectRepositoryEffect | frontend/src/routes/specification-builder.tsx:30-37 | once the list and an id are present, a matching repository becomes the selection; the selection is otherwise unchanged |
| SpecificationBuilder.RepositoryNamed | frontend-wize-code/src/routes/home.tsx:83 | the found repository is in the list and its id prints as `repoId`; no repository is found only when none prints so |
| SpecificationBuilder.RepositoryIdRoundTrip | frontend-wize-code/src/routes/home.tsx:83-99 | with distinct ids, the id string passed on navigation finds the same repository again |
| SpecificationBuilder.Screen.HandleSubmit | frontend/src/routes/specification-builder.tsx:70-82 | performs `SubmitDispatch`: a reply or a continue with the gateway's answer, or nothing; the input is cleared unless ignored |
| SpecificationBuilder.SpecificationText | frontend/src/routes/specification-builder.tsx:94-134 | a truthy `result` becomes its JSON when of type object, else `String(result)`; otherwise there is text iff messages exist: a non-empty last `message` taken verbatim, else `String(content)` when `content` is truthy, else "" |
| SpecificationBuilder.CanSendMessage | frontend/src/routes/specification-builder.tsx:137 | never while loading; with no session id sending needs only that, with one it also needs the session to await user input |
| SpecificationBuilder.Screen.HandleSendToCoder | frontend/src/routes/specification-builder.tsx:85-135 | does nothing unless completed with a session id; otherwise the request is "Generated specification:\n\n" + the text, with the selected repository |
| SpecificationBuilder.SendAfterMessageFallback | frontend/src/routes/specification-builder.tsx:94-116 | after a Complete tick that fell back to the last message, send-to-coder passes the JSON of `{specification}`, not the bare text |
| HomeFrontend.SubmitRequest | frontend/src/routes/home.tsx:48-85 | a request is made iff the button is enabled, and it carries the input text with no repository |
| HomeFrontend.SubmitIffEnabled | frontend/src/routes/home.tsx:35-54 | a submit creates a conversation iff none is pending, succeeded or being created elsewhere, and the input has a non-whitespace character |
| HomeFrontend.HomeScreen.HandleSubmit | frontend/src/routes/home.tsx:48-54 | returns `SubmitRequest`, and clears the input exactly when a request is made |
| HomeFrontend.ConversationLabel | frontend/src/routes/home.tsx:134 | "Complete" iff STOPPED, "Running" iff RUNNING, "Starting" for any other status; frontend-wize-code/src/routes/home.tsx:261 writes the same caption and shares this member |
| HomeFrontend.ConversationLabelColor | frontend/src/routes/home.tsx:133 | blue exactly for "Complete" labels, green for the rest; frontend-wize-code/src/routes/home.tsx:260 writes the same colour and shares this member |
| HomeFrontend.IsCreatingConversation | frontend/src/routes/home.tsx:35-36 | a pending, a succeeded or an elsewhere-started creation each counts as creating; nothing else does |
| HomeWizeCode.StatusText | frontend-wize-code/src/routes/home.tsx:287-299 | "Completed" whenever completed; otherwise "In Progress" iff some task is pending, else "Processing" |
| HomeWizeCode.StatusStyles | frontend-wize-code/src/routes/home.tsx:273-285 | blue whenever completed; otherwise green iff some task is pending, else yellow |
| HomeWizeCode.StatusStylesMatchText | frontend-wize-code/src/routes/home.tsx:273-299 | the blue, green and yellow badge styles correspond one-to-one to the three texts |
| HomeWizeCode.InProgressAgreesWithTaskList | frontend-wize-code/src/routes/home.tsx:279-293 | when the badge reads "In Progress", some task's row in the task list also reads "In Progress" |
| HomeWizeCode.SubmitNavigation | frontend-wize-code/src/routes/home.tsx:92-145 | navigates iff the button is enabled, with the input as query and a repository id exactly when one is selected, that id being the repository's numeric id as decimal text |
| HomeWizeCode.HomeScreen.HandleRepoSelection | frontend-wize-code/src/routes/home.tsx:76-88 | no id or no list clears the selection; a matching id selects that repository; an unknown id keeps the old one |
| HomeWizeCode.HomeScreen.HandleSubmit | frontend-wize-code/src/routes/home.tsx:92-104 | returns `SubmitNavigation` and clears the input exactly when it navigates |
| HomeWizeCode.FinalMessageRequest | frontend-wize-code/src/routes/home.tsx:194-203 | a request is made iff messages exist; its query is "Generated specification:\n\n" followed by `String(message \|\| content \|\| "")` of the last message, and it carries the selected repository |
| HomeWizeCode.FinalMessageAgreesWithBuilder | frontend-wize-code/src/routes/home.tsx:194-203 | the home screen's "Send" builds the same request as the builder's send-to-coder would with no session result |
| HomeWizeCode.HomeScreen.SendFinalSpecification | frontend-wize-code/src/routes/home.tsx:189-209 | shown only when completed: returns `FinalMessageRequest` of the session's messages |
| TaskList.StatusColor | frontend/src/components/features/wize-teams/task-list.tsx:83-94 | the text colour is `text-` and the status's hue; it is neutral exactly for statuses other than done, pending and failed |
| TaskList.StatusIndicatorColor | frontend/src/components/features/wize-teams/task-list.tsx:96-107 | the dot colour is `bg-` and the same hue; it is neutral exactly for statuses other than done, pending and failed |
| TaskList.StatusColorsPartitionAlike | frontend/src/components/features/wize-teams/task-list.tsx:83-107 | two statuses share a text colour iff they share an indicator colour |
| TaskList.StatusColorsOfStatuses | frontend/src/components/features/wize-teams/task-list.tsx:83-94 | done is blue, pending green and failed red; in-progress and awaiting are neutral |
| TaskList.StatusText | frontend/src/components/features/wize-teams/task-list.tsx:109-120 | any status other than done, pending and failed is shown as its raw wire string |
| TaskList.StatusTextOfStatuses | frontend/src/components/features/wize-teams/task-list.tsx:109-120 | done, pending and failed read "Complete", "In Progress" and "Failed"; the other two read "in_progress" and "awaiting_user_input"; distinct statuses read differently |
| TaskList.PriorityColor | frontend/src/components/features/wize-teams/task-list.tsx:122-133 | the neutral style exactly for priorities other than high, medium and low |
| TaskList.PriorityColors | frontend/src/components/features/wize-teams/task-list.tsx:122-133 | high, medium and low are red, yellow and blue, pairwise distinct; any other string gets the neutral style |
| TaskList.Toggled | frontend/src/components/features/wize-teams/task-list.tsx:12-18 | the result is collapsed iff the toggled id was the expanded one, and otherwise it is that id |
| TaskList.ToggleTwiceCollapses | frontend/src/components/features/wize-teams/task-list.tsx:12-18 | from collapsed, toggling one id twice collapses again; toggling another id expands only the toggled one |
| TaskList.TaskExpansion.ToggleTaskExpansion | frontend/src/components/features/wize-teams/task-list.tsx:12-18 | the expanded id becomes `Toggled` of the old one |
| TaskList.Render | frontend/src/components/features/wize-teams/task-list.tsx:19-79 | the skeleton is shown iff the list is empty, whatever the loading flag; otherwise there is one row per task |
| TaskList.RenderOpensExpandedOnly | frontend/src/components/features/wize-teams/task-list.tsx:37-79 | a row is open iff its id is the expanded one; every row shows its status text; with distinct ids at most one row is open |
| TaskList.ResultText | frontend/src/components/features/wize-teams/task-list.tsx:59-66 | the result block appears iff the result is truthy; a string is shown verbatim and anything else is serialised |
| WizeTypes.ParseTaskStatus | frontend/src/api/wize-teams.types.ts:1-7 | a parsed status prints back as the input, and no status prints as a rejected string |
| WizeTypes.TaskStatusRoundTrip | frontend/src/api/wize-teams.types.ts:1-7 | enum → string → enum is the identity, and the five wire strings are pairwise distinct |
| WizeTypes.TaskPrioritiesAreThree | frontend/src/api/wize-teams.types.ts:9-13 | there are exactly three priorities, with distinct wire strings |
| WizeTypes.ParseRunStatus | frontend/src/api/wize-teams.types.ts:50-58 | a parsed run status prints back as the input, and no run status prints as a rejected string |
| WizeTypes.RunStatusesAreSeven | frontend/src/api/wize-teams.types.ts:50-58 | there are exactly seven run statuses, from "created" to "stopped", with distinct wire strings that parse back |
| WizeTypes.AskUserWireIsDistinct | frontend/src/api/wize-teams.types.ts:226-236 | ASK_USER is "ask-user", and no other tool type has that wire string |
| SessionToken.GetCookie | frontend/src/api/session-token.ts:2-9 | the loop's object equals `CookieMapOf` of the `;`-split items: each trimmed key bound to its value, with later items overwriting earlier ones |
| SessionToken.CookieMapKeys | frontend/src/api/session-token.ts:4-7 | a key is present iff some item's trimmed first `=`-part equals it |
| SessionToken.LaterItemWins | frontend/src/api/session-token.ts:6 | a key's value comes from its last item |
| SessionToken.ValueCutAtSecondEquals | frontend/src/api/session-token.ts:5-6 | in `k=a=b` the key trims `k` and the value is the untrimmed `a` |
| SessionToken.ValueAbsentOrEmpty | frontend/src/api/session-token.ts:5-6 | an item without `=` has an absent value; `k=` has the empty value |
| SessionToken.ItemOfParts | frontend/src/api/session-token.ts:5-6 | an item joined from `=`-free parts has key `trim(parts[0])` and value `parts[1]` when a second part exists |
| SessionToken.GetSessionToken | frontend/src/api/session-token.ts:11-19 | returns the `rf` entry when it is a non-empty string, and none otherwise |
| SessionToken.SessionTokenIsLastRfValue | frontend/src/api/session-token.ts:11-19 | with no `rf` item there is no token; otherwise the token is the last `rf` item's value when that is non-empty |
| SessionToken.EmptyTokenIsNone | frontend/src/api/session-token.ts:14 | `rf=` yields no token |
| SessionToken.CookieName | frontend/src/api/session-token.ts:24-25 | the name is a prefix of the item free of `=`, and when shorter than the item it stops right at the first `=` |
| SessionToken.CookieNameIsKeyUntrimmed | frontend/src/api/session-token.ts:24-25 | the deletion name is the text before the first `=`, the untrimmed form of the `getCookie` key |
| SessionToken.DeleteCookies | frontend/src/api/session-token.ts:21-33 | the writes produced equal `DeletionWrites` of the `;`-split items |
| SessionToken.DeletionWritesCoverTargets | frontend/src/api/session-token.ts:26-29 | every item whose name contains "rf" gets all three expiring writes: no domain, the domain, and the dotted domain |
| SessionToken.DeletionWritesOnlyTargets | frontend/src/api/session-token.ts:26-29 | every write expires the name of an item whose name contains "rf" |
| SessionToken.TokenItemIsDeleted | frontend/src/api/session-token.ts:24-26 | an item that `getCookie` keys as `rf` is deleted |
| SessionToken.NamesContainingRfAreDeleted | frontend/src/api/session-token.ts:24-26 | any name with "rf" inside, for example `xrfy=v`, is deleted |
| SessionToken.SurfIsDeleted | frontend/src/api/session-token.ts:26 | `surf=1` is deleted |
| AuthCheck.HasRefreshToken | frontend/src/hooks/use-auth-check.ts:7-11 | true iff some `;`-separated item, trimmed, starts with `rf=`; and then `getCookie` has an `rf` key |
| AuthCheck.RfItemGivesKey | frontend/src/hooks/use-auth-check.ts:7-11 | if some item trims to text starting with `rf=`, the cookie map `getCookie` reads has an `rf` key |
| AuthCheck.RfItemIsKeyedRf | frontend/src/hooks/use-auth-check.ts:10 | an item that trims to something starting with `rf=` is keyed `rf` |
| AuthCheck.SingleItemGuard | frontend/src/hooks/use-auth-check.ts:9-10 | for a cookie with no `;`, the guard holds iff the trimmed cookie starts with `rf=` |
| AuthCheck.EmptyRfIsPresent | frontend/src/hooks/use-auth-check.ts:10 | `rf=` with an empty value counts as present |
| AuthCheck.LongerKeyIsAbsent | frontend/src/hooks/use-auth-check.ts:10 | `xrf=1` does not count |
| AuthCheck.BareRfIsAbsent | frontend/src/hooks/use-auth-check.ts:10 | `rf` without `=` does not count |
| AuthCheck.GuardPassesWithoutToken | frontend/src/hooks/use-auth-check.ts:10 | `rf=` passes the guard but `getSessionToken` finds no token in it |
| AuthCheck.SpacedKeyFailsGuard | frontend/src/hooks/use-auth-check.ts:10 | `rf =x` fails the guard |
| AuthCheck.SpacedKeyGivesToken | frontend/src/api/session-token.ts:6 | yet `getSessionToken` trims the key of `rf =x` and returns `x` |
| AuthCheck.CheckAuth | frontend/src/hooks/use-auth-check.ts:19-41 | with a token nothing happens; without one, a local host gets only the error toast, and any other host is redirected to the auth URL plus the encoded address when that URL is configured; at most one effect |
| JsValues.Or | frontend/src/hooks/use-wize-teams-session.ts:129 | `a \|\| b` is truthy iff either is, and it is `a` when `a` is truthy |
| JsValues.IntToStringInjective | frontend-wize-code/src/routes/home.tsx:83 | distinct numbers print differently, so `id.toString()` identifies a repository |
| JsStrings.JoinSplit | frontend/src/api/session-token.ts:4 | joining the `split` parts with the separator gives back the string |
| JsStrings.TrimEmptyIffBlank | frontend/src/routes/specification-builder.tsx:72 | `trim()` is empty iff every character is whitespace |
| Seqs.Find | frontend/src/hooks/use-wize-teams-session.ts:164-166 | `find` returns some element iff one satisfies the predicate, and then the first such one |

## Left out

- Network transport. Gateway calls are parameters and returned `GatewayCall` values; their timing, retries and interceptors are not part of this model.
- Client and type mismatches. `getSessionMessages` returns `{messages, totalCount}` and `getTeamSessionResults` returns a session, while the hook reads a message array and result fields. The model uses the shapes the hook reads, so the runtime type confusion is not reproduced.
- Message-log failures. `getSessionMessages` never throws: it returns an empty list on failure. The model therefore gives the message-log answers no failure case.
- Timers. An interval is only `pollingTimer` (the polled id). Ticks that overlap or arrive late, and `useCallback` closures over a stale `sessionId`, are not modelled. Neither is the fact that `startSession` overwrites an armed interval without clearing it.
- Console logging, JSX, markdown rendering, CSS classes other than the status colours, auto-scroll, and the height measurement of `CollapsibleContent` are out of scope.
- `toLocaleTimeString`, `toLocaleString` and `new Date()` are display-only. The clock value stored in a result is the parameter `now`.
- `JSON.stringify`, `encodeURIComponent` and `String(...)` of objects are opaque: the first two are parameters. `String` is modelled for primitives and arrays, and gives a fixed placeholder for plain objects.
- JavaScript numbers are modelled as unbounded integers. Fractions, `NaN` and the decimal printing of non-integers are not represented.
- The cookie object is a map. Keys such as `__proto__` that a JavaScript object treats specially, and the object's key order, are not modelled.
- The `Map` in `deduplicateMessages` is a seen-key set plus a list of kept entries. Only its insertion order is relied on.
- Browser effects are returned as strings or values and are not performed: `document.cookie` writes, `localStorage.clear()`, `window.location` assignment and toasts. `document.domain` is a parameter.
- Query hooks (`useCreateConversation`, `useUserConversations`, `useUserRepositories`) appear only as the flags or lists they provide. The conversation list's loading, error and empty branches are rendering and are not modelled.
- Runtime shapes that differ from the declared types are not represented. For example, a non-string title or a non-array task list cannot occur in the model.
- Team configuration constants (`POLLING_INTERVAL`, the team id) are opaque values.
- ConversationDisplay.SenderLabel: its own contract states only non-emptiness and when the label is "You". The full order is stated by `ConversationDisplayWizeCode.SenderLabel` together with `ConversationDisplayWizeCode.LabelsAgreeExceptSystem`.
