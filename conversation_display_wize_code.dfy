/**
 * The coding front end's conversation display: the same deduplicated timeline, but
 * every entry is a plain bubble (no task-result titles) and the sender label has no
 * "System" case; the results block lists the fields of an object result.
 */
module ConversationDisplayWizeCode {
  import opened Wrappers
  import opened JsValues
  import opened WizeTypes
  import opened MessageDedup
  import opened ConversationView
  import ConversationDisplay
  import WizeTeamsSession

  /** The label above an entry: "You", "Final Specification", the agent, or "AI Team". */
  function SenderLabel(m: MessageRecord, isFinal: bool): (r: string)
    ensures r != ""
    ensures m.sender != "user" && isFinal ==> r == "Final Specification"
    ensures m.sender != "user" && !isFinal ==> r == if m.agentId != "" then m.agentId else "AI Team"
  {
    if m.sender == "user" then "You"
    else if isFinal then "Final Specification"
    else if m.agentId != "" then m.agentId
    else "AI Team"
  }

  /** The two labellings agree on every sender except "system", which only the other display names. */
  lemma LabelsAgreeExceptSystem(m: MessageRecord, isFinal: bool)
    ensures m.sender != "system" ==> SenderLabel(m, isFinal) == ConversationDisplay.SenderLabel(m, isFinal)
    ensures m.sender == "system" ==> (ConversationDisplay.SenderLabel(m, isFinal) == "System"
      && SenderLabel(m, isFinal) == (if isFinal then "Final Specification" else if m.agentId != "" then m.agentId else "AI Team"))
  {
  }

  /** A rendered entry: its label and the text shown under it. */
  datatype Bubble = Bubble(senderLabel: string, text: JsValue)

  /** The timeline: one bubble per deduplicated message, task results included. */
  function Timeline(messages: seq<MessageRecord>, isCompleted: bool): (r: seq<Bubble>)
    ensures |r| == |Dedup(messages)|
  {
    var shown := Dedup(messages);
    seq(|shown|, i requires 0 <= i < |shown| =>
      Bubble(SenderLabel(shown[i], IsFinalSpecification(isCompleted, shown[i], i, |messages|)),
             WizeTeamsSession.MessageText(shown[i])))
  }

  /**
   * Both timelines show the same messages in the same order; where an entry is neither
   * a task result nor from "system", they also give it the same label and text.
   */
  lemma TimelinesAgree(messages: seq<MessageRecord>, isCompleted: bool)
    ensures |Timeline(messages, isCompleted)| == |ConversationDisplay.Timeline(messages, isCompleted)|
    ensures forall i | 0 <= i < |Timeline(messages, isCompleted)| ::
      var m := Dedup(messages)[i];
      m.messageType != Some("task-result") && m.sender != "system" ==>
        ConversationDisplay.Timeline(messages, isCompleted)[i]
          == ConversationDisplay.Bubble(Timeline(messages, isCompleted)[i].senderLabel, Timeline(messages, isCompleted)[i].text)
  {
    var mine, theirs := Timeline(messages, isCompleted), ConversationDisplay.Timeline(messages, isCompleted);
    forall i | 0 <= i < |mine|
      ensures var m := Dedup(messages)[i];
        m.messageType != Some("task-result") && m.sender != "system" ==>
          theirs[i] == ConversationDisplay.Bubble(mine[i].senderLabel, mine[i].text)
    {
      var m := Dedup(messages)[i];
      LabelsAgreeExceptSystem(m, IsFinalSpecification(isCompleted, m, i, |messages|));
    }
  }

  /** How the "Results" block presents the session result. */
  datatype ResultsView =
    | FieldList(result: JsValue)
    | JsonText(shown: JsValue)

  /** An object (or array) result is listed field by field; anything else is printed as JSON of `result || sessionResult`. */
  function ResultsBlock(sessionResult: JsValue): (r: ResultsView)
    ensures r.FieldList? <==> Truthy(Get(sessionResult, "result")) && IsTypeofObject(Get(sessionResult, "result"))
    ensures r.FieldList? ==> r.result == sessionResult.fields["result"] && (r.result.JObj? || r.result.JArr?)
    ensures r.JsonText? ==> r.shown == ConversationDisplay.FinalResultsContent(sessionResult)
  {
    var result := Get(sessionResult, "result");
    if Truthy(result) && IsTypeofObject(result) then FieldList(result)
    else JsonText(Or(result, sessionResult))
  }
}
