/**
 * The specification builder's conversation display: a deduplicated timeline where
 * task results get a title taken from their first line, every other entry a sender
 * label, followed by a "Final Results" block when there is a session result.
 */
module ConversationDisplay {
  import opened Wrappers
  import opened JsValues
  import opened JsStrings
  import opened WizeTypes
  import opened MessageDedup
  import opened ConversationView
  import WizeTeamsSession

  const TaskCompletedPrefix := "Task completed: "

  /** The characters the regular expression `.` does not match. */
  predicate IsRegexLineTerminator(c: char) {
    c == '\n' || c == '\r' || c == '\U{2028}' || c == '\U{2029}'
  }

  /**
   * `/^Task completed: (.+?)\n/` matches `text` with a capture of length `n`: the prefix,
   * then `n > 0` characters none of which is a line terminator, then a newline.
   */
  predicate TitleMatchesWith(text: string, n: nat) {
    && StartsWith(text, TaskCompletedPrefix)
    && 0 < n && |TaskCompletedPrefix| + n < |text|
    && text[|TaskCompletedPrefix| + n] == '\n'
    && forall k | |TaskCompletedPrefix| <= k < |TaskCompletedPrefix| + n :: !IsRegexLineTerminator(text[k])
  }

  /** Length of the first line of `s`: the position of its first line terminator, or `|s|`. */
  function LineLength(s: string): (r: nat)
    ensures r <= |s|
    ensures forall k | 0 <= k < r :: !IsRegexLineTerminator(s[k])
    ensures r < |s| ==> IsRegexLineTerminator(s[r])
  {
    if s == [] || IsRegexLineTerminator(s[0]) then 0 else 1 + LineLength(s[1..])
  }

  /** A match ends its capture at the first line terminator after the prefix. */
  lemma FirstLineOfMatch(text: string, n: nat)
    requires TitleMatchesWith(text, n)
    ensures LineLength(text[|TaskCompletedPrefix|..]) == n
  {
    var p := |TaskCompletedPrefix|;
    var rest := text[p..];
    assert forall k | 0 <= k <= n :: rest[k] == text[p + k];
  }

  /** The capture can have only one length, so the lazy `+?` has no choice to make. */
  lemma TitleMatchUnique(text: string, n: nat, m: nat)
    requires TitleMatchesWith(text, n) && TitleMatchesWith(text, m)
    ensures n == m
  {
    FirstLineOfMatch(text, n);
    FirstLineOfMatch(text, m);
  }

  /** `message.match(/^Task completed: (.+?)\n/)?.[1]`. */
  function TitleCapture(text: string): (r: Option<string>)
    ensures r.Some? ==> (TitleMatchesWith(text, |r.value|)
      && r.value == text[|TaskCompletedPrefix|..|TaskCompletedPrefix| + |r.value|])
    ensures r.None? ==> forall n: nat :: !TitleMatchesWith(text, n)
  {
    if !StartsWith(text, TaskCompletedPrefix) then None
    else
      var p := |TaskCompletedPrefix|;
      var rest := text[p..];
      var n := LineLength(rest);
      if 0 < n < |rest| && rest[n] == '\n' then
        assert forall k | p <= k < p + n :: text[k] == rest[k - p];
        Some(rest[..n])
      else
        forall m: nat | TitleMatchesWith(text, m) ensures LineLength(rest) == m {
          FirstLineOfMatch(text, m);
        }
        None
  }

  /** The task-result title: the whole first line when the regular expression matches, else "Task completed". */
  function TaskResultTitle(text: string): (r: string)
    ensures forall n: nat | TitleMatchesWith(text, n) :: r == text[..|TaskCompletedPrefix| + n]
    ensures (forall n: nat :: !TitleMatchesWith(text, n)) ==> r == "Task completed"
  {
    match TitleCapture(text)
    case Some(x) =>
      assert text[..|TaskCompletedPrefix|] == TaskCompletedPrefix;
      assert forall n: nat | TitleMatchesWith(text, n) :: n == |x| by {
        forall n: nat | TitleMatchesWith(text, n) ensures n == |x| { TitleMatchUnique(text, n, |x|); }
      }
      assert text[..|TaskCompletedPrefix| + |x|] == TaskCompletedPrefix + x;
      "Task completed: " + x
    case None => "Task completed"
  }

  /** A first line ending in a newline gives the whole line as the title. */
  lemma TitleOfFirstLine()
    ensures TaskResultTitle("Task completed: Build API\nDetails") == "Task completed: Build API"
  {
    var text := "Task completed: Build API\nDetails";
    assert text[..|TaskCompletedPrefix|] == TaskCompletedPrefix;
    assert TitleMatchesWith(text, 9);
    assert text[..25] == "Task completed: Build API";
  }

  /** An empty capture, a missing newline and a carriage return before it all give the plain title. */
  lemma PlainTitleExamples()
    ensures TaskResultTitle("Task completed: \nDetails") == "Task completed"
    ensures TaskResultTitle("Task completed: Build API") == "Task completed"
    ensures TaskResultTitle("Task completed: A\r\nB") == "Task completed"
  {
    EmptyCaptureTitle();
    NoNewlineTitle();
    CarriageReturnTitle();
  }

  lemma EmptyCaptureTitle()
    ensures TaskResultTitle("Task completed: \nDetails") == "Task completed"
  {
    var t := "Task completed: \nDetails";
    assert t[..|TaskCompletedPrefix|] == TaskCompletedPrefix;
    assert t[16..][0] == '\n';
  }

  lemma NoNewlineTitle()
    ensures TaskResultTitle("Task completed: Build API") == "Task completed"
  {
    var t := "Task completed: Build API";
    assert t[..|TaskCompletedPrefix|] == TaskCompletedPrefix;
    assert t[16..] == "Build API";
    assert forall k | 0 <= k < 9 :: !IsRegexLineTerminator("Build API"[k]);
  }

  lemma CarriageReturnTitle()
    ensures TaskResultTitle("Task completed: A\r\nB") == "Task completed"
  {
    var t := "Task completed: A\r\nB";
    assert t[..|TaskCompletedPrefix|] == TaskCompletedPrefix;
    assert t[16..] == "A\r\nB";
    assert LineLength("A\r\nB") == 1 by {
      assert "A\r\nB"[1..] == "\r\nB";
    }
  }

  /** The label above a regular entry. */
  function SenderLabel(m: MessageRecord, isFinal: bool): (r: string)
    ensures r != ""
    ensures r == "You" <==> m.sender == "user" || (m.sender != "system" && !isFinal && m.agentId == "You")
  {
    if m.sender == "user" then "You"
    else if m.sender == "system" then "System"
    else if isFinal then "Final Specification"
    else if m.agentId != "" then m.agentId
    else "AI Team"
  }

  /** One rendered timeline entry. */
  datatype Entry =
    | TaskResultEntry(title: string, content: JsValue)
    | Bubble(senderLabel: string, text: JsValue)

  /** How the entry at display position `index` is drawn. */
  function EntryFor(isCompleted: bool, m: MessageRecord, index: nat, originalLength: nat): Entry {
    if m.messageType == Some("task-result") then TaskResultEntry(TaskResultTitle(m.message), m.content)
    else Bubble(SenderLabel(m, IsFinalSpecification(isCompleted, m, index, originalLength)),
                WizeTeamsSession.MessageText(m))
  }

  /** The timeline: one entry per deduplicated message, finality judged against the undeduplicated length. */
  function Timeline(messages: seq<MessageRecord>, isCompleted: bool): (r: seq<Entry>)
    ensures |r| == |Dedup(messages)|
  {
    var shown := Dedup(messages);
    seq(|shown|, i requires 0 <= i < |shown| => EntryFor(isCompleted, shown[i], i, |messages|))
  }

  /**
   * Task results are titled, never labelled; every other entry of a user is labelled
   * "You"; "Final Specification" can only stand on the last entry of a log without duplicates.
   */
  lemma TimelineLabels(messages: seq<MessageRecord>, isCompleted: bool)
    ensures forall i | 0 <= i < |Timeline(messages, isCompleted)| ::
      Timeline(messages, isCompleted)[i].TaskResultEntry? <==> Dedup(messages)[i].messageType == Some("task-result")
    ensures forall i | 0 <= i < |Timeline(messages, isCompleted)| ::
      Dedup(messages)[i].messageType != Some("task-result") && Dedup(messages)[i].sender == "user" ==>
        Timeline(messages, isCompleted)[i] == Bubble("You", WizeTeamsSession.MessageText(Dedup(messages)[i]))
    ensures |Dedup(messages)| < |messages| ==> forall i | 0 <= i < |Timeline(messages, isCompleted)| ::
      Timeline(messages, isCompleted)[i] == EntryFor(false, Dedup(messages)[i], i, |messages|)
  {
  }

  /** What the "Final Results" block shows: `sessionResult.result || sessionResult`. */
  function FinalResultsContent(sessionResult: JsValue): (r: JsValue)
    ensures Truthy(Get(sessionResult, "result")) ==> r == sessionResult.fields["result"]
    ensures !Truthy(Get(sessionResult, "result")) ==> r == sessionResult
  {
    Or(Get(sessionResult, "result"), sessionResult)
  }
}
