/**
 * The task roster panel: status and priority badges, one task expanded at a time, and
 * the result and details shown under the expanded task. Status and priority arrive as
 * wire strings, so the helpers take strings and their `default` branches are reachable.
 */
module TaskList {
  import opened Wrappers
  import opened JsValues
  import opened WizeTypes

  /** `getStatusColor`: the text colour names the status's hue; unknown statuses are neutral. */
  function StatusColor(status: string): (r: string)
    ensures r == "text-" + StatusHue(status)
    ensures r == "text-neutral-400" <==> status !in {"done", "pending", "failed"}
  {
    assert "text-blue-500" == "text-" + "blue-500" && "text-green-500" == "text-" + "green-500";
    assert "text-red-500" == "text-" + "red-500" && "text-neutral-400" == "text-" + "neutral-400";
    if status == "done" then "text-blue-500"
    else if status == "pending" then "text-green-500"
    else if status == "failed" then "text-red-500"
    else "text-neutral-400"
  }

  /** `getStatusIndicatorColor`: the dot colour names the same hue after `bg-`; unknown statuses are neutral. */
  function StatusIndicatorColor(status: string): (r: string)
    ensures r == "bg-" + StatusHue(status)
    ensures r == "bg-neutral-400" <==> status !in {"done", "pending", "failed"}
  {
    assert "bg-blue-500" == "bg-" + "blue-500" && "bg-green-500" == "bg-" + "green-500";
    assert "bg-red-500" == "bg-" + "red-500" && "bg-neutral-400" == "bg-" + "neutral-400";
    if status == "done" then "bg-blue-500"
    else if status == "pending" then "bg-green-500"
    else if status == "failed" then "bg-red-500"
    else "bg-neutral-400"
  }

  /** The hue both colours name for a status. */
  function StatusHue(status: string): string {
    if status == "done" then "blue-500"
    else if status == "pending" then "green-500"
    else if status == "failed" then "red-500"
    else "neutral-400"
  }

  /** So the two colours split statuses alike: two statuses share a text colour exactly when they share a dot colour. */
  lemma StatusColorsPartitionAlike(status: string, other: string)
    ensures StatusColor(status) == StatusColor(other) <==> StatusIndicatorColor(status) == StatusIndicatorColor(other)
  {
    var hue, otherHue := StatusHue(status), StatusHue(other);
    assert ("bg-" + hue)[3..] == hue && ("bg-" + otherHue)[3..] == otherHue;
    assert ("text-" + hue)[5..] == hue && ("text-" + otherHue)[5..] == otherHue;
  }

  /** The colours of the five statuses: blue, green and red for done, pending and failed, neutral for the rest. */
  lemma StatusColorsOfStatuses()
    ensures StatusColor(TaskStatusWire(Done)) == "text-blue-500" && StatusColor(TaskStatusWire(Pending)) == "text-green-500"
    ensures StatusColor(TaskStatusWire(Failed)) == "text-red-500"
    ensures StatusColor(TaskStatusWire(InProgress)) == StatusColor(TaskStatusWire(AwaitingUserInput)) == "text-neutral-400"
  {
  }

  /** `getStatusText`: three statuses get a caption, every other value is shown as sent. */
  function StatusText(status: string): (r: string)
    ensures status !in {"done", "pending", "failed"} ==> r == status
  {
    if status == "done" then "Complete"
    else if status == "pending" then "In Progress"
    else if status == "failed" then "Failed"
    else status
  }

  /** The captions of the five statuses, pairwise distinct; note that "pending" reads "In Progress". */
  lemma StatusTextOfStatuses()
    ensures StatusText(TaskStatusWire(Done)) == "Complete"
    ensures StatusText(TaskStatusWire(Pending)) == "In Progress"
    ensures StatusText(TaskStatusWire(Failed)) == "Failed"
    ensures StatusText(TaskStatusWire(InProgress)) == "in_progress"
    ensures StatusText(TaskStatusWire(AwaitingUserInput)) == "awaiting_user_input"
    ensures forall s: TaskStatus, t: TaskStatus :: StatusText(TaskStatusWire(s)) == StatusText(TaskStatusWire(t)) ==> s == t
  {
    forall s: TaskStatus, t: TaskStatus | StatusText(TaskStatusWire(s)) == StatusText(TaskStatusWire(t)) ensures s == t {
      match s
      case Done =>
      case Pending =>
      case Failed =>
      case InProgress =>
      case AwaitingUserInput =>
    }
  }

  /** `getPriorityColor`: neutral exactly for a value other than high, medium and low. */
  function PriorityColor(priority: string): (r: string)
    ensures r == "bg-neutral-800 text-neutral-300" <==> priority !in {"high", "medium", "low"}
  {
    if priority == "high" then "bg-red-900 text-red-300"
    else if priority == "medium" then "bg-yellow-900 text-yellow-300"
    else if priority == "low" then "bg-blue-900 text-blue-300"
    else "bg-neutral-800 text-neutral-300"
  }

  /** High, medium and low are red, yellow and blue, all distinct; any other value is neutral. */
  lemma PriorityColors(other: string)
    ensures PriorityColor(TaskPriorityWire(High)) == "bg-red-900 text-red-300"
    ensures PriorityColor(TaskPriorityWire(Medium)) == "bg-yellow-900 text-yellow-300"
    ensures PriorityColor(TaskPriorityWire(Low)) == "bg-blue-900 text-blue-300"
    ensures forall p: TaskPriority, q: TaskPriority :: PriorityColor(TaskPriorityWire(p)) == PriorityColor(TaskPriorityWire(q)) ==> p == q
    ensures (forall p: TaskPriority :: TaskPriorityWire(p) != other) ==> PriorityColor(other) == "bg-neutral-800 text-neutral-300"
  {
    forall p: TaskPriority, q: TaskPriority | PriorityColor(TaskPriorityWire(p)) == PriorityColor(TaskPriorityWire(q)) ensures p == q {
      match p
      case High =>
      case Medium =>
      case Low =>
    }
    if other in {"high", "medium", "low"} {
      assert TaskPriorityWire(High) == "high" && TaskPriorityWire(Medium) == "medium" && TaskPriorityWire(Low) == "low";
    }
  }

  /** The expanded task after `toggleTaskExpansion(taskId)`. */
  function Toggled(expanded: Option<int>, taskId: int): (r: Option<int>)
    ensures r.None? <==> expanded == Some(taskId)
    ensures r.Some? ==> r.value == taskId
  {
    if expanded == Some(taskId) then None else Some(taskId)
  }

  /** From the collapsed state, toggling the same task twice collapses it again; toggling another task switches to it. */
  lemma ToggleTwiceCollapses(taskId: int, other: int)
    ensures Toggled(Toggled(None, taskId), taskId) == None
    ensures other != taskId ==> Toggled(Some(other), taskId) == Some(taskId)
  {
  }

  /** The panel's one piece of state: which task is expanded, at most one. */
  class TaskExpansion {
    var expandedTaskId: Option<int>

    constructor ()
      ensures expandedTaskId.None?
    {
      expandedTaskId := None;
    }

    /** `toggleTaskExpansion(taskId)`. */
    method ToggleTaskExpansion(taskId: int)
      modifies this
      ensures expandedTaskId == Toggled(old(expandedTaskId), taskId)
    {
      if expandedTaskId == Some(taskId) {
        expandedTaskId := None;
      } else {
        expandedTaskId := Some(taskId);
      }
    }
  }

  /** `task.result && (typeof task.result === 'string' ? task.result : JSON.stringify(task.result))`. */
  function ResultText(result: JsValue, stringify: JsValue -> string): (r: Option<string>)
    ensures r.Some? <==> Truthy(result)
    ensures r.Some? && result.JStr? ==> r.value == result.s
    ensures r.Some? && !result.JStr? ==> r.value == stringify(result)
  {
    if !Truthy(result) then None
    else if result.JStr? then Some(result.s)
    else Some(stringify(result))
  }

  /** What the expanded part of a row holds. */
  datatype Expansion = Expansion(result: Option<string>, details: Option<string>)

  /** One row of the roster. */
  datatype Row = Row(
    title: string,
    description: string,
    statusColor: string,
    indicatorColor: string,
    statusText: string,
    expansion: Option<Expansion>)

  datatype View = Skeleton | Rows(rows: seq<Row>)

  function RowFor(task: Task, expanded: Option<int>, stringify: JsValue -> string): Row {
    var status := TaskStatusWire(task.status);
    Row(task.title, task.description, StatusColor(status), StatusIndicatorColor(status), StatusText(status),
        if expanded == Some(task.id)
        then Some(Expansion(ResultText(task.result, stringify), if task.details != "" then Some(task.details) else None))
        else None)
  }

  /** The panel: three placeholder bars for an empty roster, whether loading or not; else one row per task. */
  function Render(tasks: seq<Task>, isLoading: bool, expanded: Option<int>, stringify: JsValue -> string): (v: View)
    ensures v.Skeleton? <==> |tasks| == 0
    ensures v.Rows? ==> |v.rows| == |tasks|
  {
    if |tasks| == 0 then Skeleton
    else Rows(seq(|tasks|, i requires 0 <= i < |tasks| => RowFor(tasks[i], expanded, stringify)))
  }

  /**
   * Exactly the rows whose id is the expanded id are open, with the status badge
   * of their task; with distinct ids at most one row is open.
   */
  lemma {:induction false} RenderOpensExpandedOnly(tasks: seq<Task>, isLoading: bool, expanded: Option<int>, stringify: JsValue -> string)
    requires |tasks| > 0
    ensures var v := Render(tasks, isLoading, expanded, stringify);
      forall i | 0 <= i < |tasks| :: (v.rows[i].expansion.Some? <==> expanded == Some(tasks[i].id))
    ensures var v := Render(tasks, isLoading, expanded, stringify);
      forall i | 0 <= i < |tasks| :: v.rows[i].statusText == StatusText(TaskStatusWire(tasks[i].status))
    ensures (forall i, j | 0 <= i < j < |tasks| :: tasks[i].id != tasks[j].id) ==>
      var v := Render(tasks, isLoading, expanded, stringify);
      forall i, j | 0 <= i < j < |tasks| :: !(v.rows[i].expansion.Some? && v.rows[j].expansion.Some?)
  {
    var v := Render(tasks, isLoading, expanded, stringify);
    assert forall i | 0 <= i < |tasks| :: v.rows[i] == RowFor(tasks[i], expanded, stringify);
  }
}
