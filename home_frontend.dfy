/**
 * The main front end's home screen: a task box that creates a coding conversation,
 * and the list of earlier conversations with a status caption each.
 */
module HomeFrontend {
  import opened Wrappers
  import opened JsStrings
  import opened SpecificationBuilder

  /** `isPending || isSuccess || isCreatingConversationElsewhere`. */
  function IsCreatingConversation(isPending: bool, isSuccess: bool, creatingElsewhere: bool): (r: bool)
    ensures isPending ==> r
    ensures isSuccess ==> r
    ensures creatingElsewhere ==> r
    ensures !isPending && !isSuccess && !creatingElsewhere ==> !r
  {
    isPending || isSuccess || creatingElsewhere
  }

  /** The submit button's `disabled`. */
  predicate SubmitDisabled(inputValue: string, isCreating: bool) {
    isCreating || Trim(inputValue) == ""
  }

  /** What `handleSubmit` sends: `{q: inputValue}` with the untrimmed text, only when the button would be enabled. */
  function SubmitRequest(inputValue: string, isCreating: bool): (r: Option<ConversationRequest>)
    ensures r.Some? <==> !SubmitDisabled(inputValue, isCreating)
    ensures r.Some? ==> r.value == ConversationRequest(inputValue, None)
  {
    if Trim(inputValue) != "" && !isCreating then Some(ConversationRequest(inputValue, None)) else None
  }

  /** A request goes out exactly when the input has a non-whitespace character and nothing is being created. */
  lemma SubmitIffEnabled(inputValue: string, isPending: bool, isSuccess: bool, creatingElsewhere: bool)
    ensures SubmitRequest(inputValue, IsCreatingConversation(isPending, isSuccess, creatingElsewhere)).Some? <==>
      !isPending && !isSuccess && !creatingElsewhere && exists k | 0 <= k < |inputValue| :: !IsJsWhitespace(inputValue[k])
  {
    TrimEmptyIffBlank(inputValue);
  }

  /** The conversation list's caption for a conversation status. */
  function ConversationLabel(status: string): (r: string)
    ensures r == "Complete" <==> status == "STOPPED"
    ensures r == "Running" <==> status == "RUNNING"
    ensures r == "Starting" <==> status != "STOPPED" && status != "RUNNING"
  {
    if status == "STOPPED" then "Complete" else if status == "RUNNING" then "Running" else "Starting"
  }

  /** The caption's colour: blue for a stopped conversation, green otherwise. */
  function ConversationLabelColor(status: string): (r: string)
    ensures r == "text-blue-500" <==> ConversationLabel(status) == "Complete"
    ensures r == "text-green-500" <==> ConversationLabel(status) != "Complete"
  {
    if status == "STOPPED" then "text-blue-500" else "text-green-500"
  }

  /** The screen's input line. */
  class HomeScreen {
    var inputValue: string

    constructor ()
      ensures inputValue == ""
    {
      inputValue := "";
    }

    /** `handleSubmit`: create the conversation, then clear the input. */
    method HandleSubmit(isPending: bool, isSuccess: bool, creatingElsewhere: bool) returns (request: Option<ConversationRequest>)
      modifies this
      ensures request == SubmitRequest(old(inputValue), IsCreatingConversation(isPending, isSuccess, creatingElsewhere))
      ensures inputValue == if request.Some? then "" else old(inputValue)
    {
      request := None;
      var isCreatingConversation := isPending || isSuccess || creatingElsewhere;
      if Trim(inputValue) != "" && !isCreatingConversation {
        request := Some(ConversationRequest(inputValue, None));
        inputValue := "";
      }
    }
  }
}
