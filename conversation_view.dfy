/**
 * The decisions that both conversation displays make identically: whether there is a
 * session result, which of the three views to show, which entry is the final
 * specification and whether the "Send to Coder" button appears.
 */
module ConversationView {
  import opened JsValues
  import opened WizeTypes
  import opened MessageDedup

  /** `sessionResult && Object.keys(sessionResult || {}).length > 0`. */
  function HasSessionResult(sessionResult: JsValue): (r: bool)
    ensures r ==> Truthy(sessionResult)
    ensures sessionResult.JObj? ==> (r <==> |sessionResult.fields| > 0)
    ensures sessionResult.JNull? || sessionResult.JUndefined? ==> !r
  {
    Truthy(sessionResult) && OwnKeyCount(sessionResult) > 0
  }

  datatype View = LoadingSkeleton | EmptyState | Timeline

  /** The early returns of the display: a skeleton while loading with nothing to show, else "No conversation yet". */
  function SelectView(isLoading: bool, messages: seq<MessageRecord>, sessionResult: JsValue): (v: View)
    ensures v == LoadingSkeleton <==> isLoading && |messages| == 0 && !HasSessionResult(sessionResult)
    ensures v == EmptyState <==> !isLoading && |messages| == 0 && !HasSessionResult(sessionResult)
    ensures v == Timeline <==> |messages| > 0 || HasSessionResult(sessionResult)
  {
    var hasResult := HasSessionResult(sessionResult);
    if isLoading && |messages| == 0 && !hasResult then LoadingSkeleton
    else if |messages| == 0 && !hasResult then EmptyState
    else Timeline
  }

  /**
   * `isFinalSpecification(message, index)`: `index` is a position in the deduplicated
   * list while `originalLength` is the length of the list before deduplication.
   */
  function IsFinalSpecification(isCompleted: bool, message: MessageRecord, index: nat, originalLength: nat): (r: bool)
    ensures r <==> isCompleted && message.sender != "user" && originalLength > 0 && index + 1 == originalLength
    ensures r ==> index < originalLength
  {
    isCompleted && index == originalLength - 1 && message.sender != "user"
  }

  /** Once any duplicate was removed, no displayed entry is marked final. */
  lemma NoFinalAfterDuplicateRemoved(messages: seq<MessageRecord>, isCompleted: bool)
    requires |Dedup(messages)| < |messages|
    ensures forall i | 0 <= i < |Dedup(messages)| ::
      !IsFinalSpecification(isCompleted, Dedup(messages)[i], i, |messages|)
  {
  }

  /** Without duplicates the last entry is final exactly when the session completed and a non-user sent it. */
  lemma FinalIsLastWithoutDuplicates(messages: seq<MessageRecord>, isCompleted: bool)
    requires UniqueKeys(messages) && |messages| > 0
    ensures Dedup(messages) == messages
    ensures IsFinalSpecification(isCompleted, Dedup(messages)[|messages| - 1], |messages| - 1, |messages|)
      <==> isCompleted && messages[|messages| - 1].sender != "user"
    ensures forall i | 0 <= i < |messages| - 1 :: !IsFinalSpecification(isCompleted, Dedup(messages)[i], i, |messages|)
  {
    DedupOfUnique(messages);
  }

  /** `hasSessionResult && onSendToCoder && isCompleted`. */
  predicate ShowSendToCoder(sessionResult: JsValue, hasHandler: bool, isCompleted: bool) {
    HasSessionResult(sessionResult) && hasHandler && isCompleted
  }

  /** The button appears only inside the timeline view, never beside a skeleton or the empty state. */
  lemma SendToCoderOnlyInTimeline(isLoading: bool, messages: seq<MessageRecord>, sessionResult: JsValue, hasHandler: bool, isCompleted: bool)
    requires ShowSendToCoder(sessionResult, hasHandler, isCompleted)
    ensures SelectView(isLoading, messages, sessionResult) == Timeline
  {
  }

  /** Distinct (sender, message) pairs whose joined keys coincide are merged, and `content` is ignored. */
  lemma KeyMergesConcatenationCollisions(m1: MessageRecord, m2: MessageRecord)
    requires m1.sender == "a-b" && m1.message == "c"
    requires m2.sender == "a" && m2.message == "b-c"
    ensures (m1.sender, m1.message) != (m2.sender, m2.message)
    ensures Dedup([m1, m2]) == [m2]
  {
    assert Key(m1) == "a-b-c" == Key(m2);
    assert [m1, m2][1..] == [m2];
    assert [m2][1..] == [];
    assert Keys([]) == {};
    KeysCons([m2]);
    assert Dedup([m2]) == [m2];
  }
}
