/** The Gantt view's task normalisation (`processedData` in `generateGantt`):
    every task the server sends is completed with defaults before it is
    handed to the Gantt library. */
module GanttTasks {
  import opened JsValues

  datatype Option<T> = None | Some(value: T)

  /** One entry of the server's `ganttData` list, each property as sent (or
      `Undefined` when absent). */
  datatype RawTask = RawTask(
    id: JsValue,
    name: JsValue,
    start: JsValue,
    end: JsValue,
    progress: JsValue,
    kind: JsValue,          // the task's `type` property
    hideChildren: JsValue,
    dependencies: JsValue,
    parent: JsValue)

  /** The task as handed to the Gantt library. `start` and `end` are the
      values the dates are built from; `parent` is present only when the
      input has one. */
  datatype GanttTask = GanttTask(
    id: JsValue,
    name: JsValue,
    start: JsValue,
    end: JsValue,
    progress: JsValue,
    kind: JsValue,
    hideChildren: JsValue,
    customClass: string,
    dependencies: JsValue,
    parent: Option<JsValue>)

  /** The id given to a task that has none: `task-` and a random suffix,
      which the caller supplies. */
  function FreshId(suffix: string): (id: JsValue)
    ensures id.Str? && Truthy(id)
  {
    Str("task-" + suffix)
  }

  /** Normalises one task; `suffix` stands for the random part of a generated id. */
  function ProcessTask(task: RawTask, suffix: string): (t: GanttTask)
    ensures Truthy(task.id) ==> t.id == task.id
    ensures !Truthy(task.id) ==> t.id == FreshId(suffix)
    ensures Truthy(task.name) ==> t.name == task.name
    ensures !Truthy(task.name) ==> t.name == Str("Untitled Task")
    ensures t.start == task.start && t.end == task.end
    ensures Truthy(task.progress) ==> t.progress == task.progress
    ensures !Truthy(task.progress) ==> t.progress == Num(0)
    ensures Truthy(task.kind) ==> t.kind == task.kind
    ensures !Truthy(task.kind) ==> t.kind == Str("task")
    ensures Truthy(task.hideChildren) ==> t.hideChildren == task.hideChildren
    ensures !Truthy(task.hideChildren) ==> t.hideChildren == Bool(false)
    ensures t.customClass == "group-task" <==> task.kind == Str("group")
    ensures t.customClass in {"group-task", "normal-task"}
    ensures Truthy(task.dependencies) ==> t.dependencies == task.dependencies
    ensures !Truthy(task.dependencies) ==> t.dependencies == Arr([])
    ensures t.parent.Some? <==> Truthy(task.parent)
    ensures t.parent.Some? ==> t.parent.value == task.parent
  {
    GanttTask(
      Or(task.id, FreshId(suffix)),
      Or(task.name, Str("Untitled Task")),
      task.start,
      task.end,
      Or(task.progress, Num(0)),
      Or(task.kind, Str("task")),
      Or(task.hideChildren, Bool(false)),
      if task.kind == Str("group") then "group-task" else "normal-task",
      Or(task.dependencies, Arr([])),
      if Truthy(task.parent) then Some(task.parent) else None)
  }

  /** The `ganttData.map(...)`: one normalised task per input task, in order;
      `suffixes[i]` is the random suffix drawn for task `i`. */
  function ProcessData(tasks: seq<RawTask>, suffixes: seq<string>): (r: seq<GanttTask>)
    requires |suffixes| == |tasks|
    ensures |r| == |tasks|
    ensures forall i :: 0 <= i < |tasks| ==> r[i] == ProcessTask(tasks[i], suffixes[i])
  {
    seq(|tasks|, i requires 0 <= i < |tasks| => ProcessTask(tasks[i], suffixes[i]))
  }

  /** What the Gantt view shows: a message when there are no tasks, the
      chart of the normalised tasks otherwise. */
  datatype GanttView = NoTasksMessage | Chart(tasks: seq<GanttTask>)

  /** `generateGantt` once the data has arrived: a missing (`null` or absent)
      or empty `ganttData` gives the no-tasks message. */
  function PrepareGantt(ganttData: Option<seq<RawTask>>, suffixes: seq<string>): (v: GanttView)
    requires ganttData.Some? ==> |suffixes| == |ganttData.value|
    ensures v.NoTasksMessage? <==> ganttData == None || ganttData.value == []
    ensures v.Chart? ==> v.tasks == ProcessData(ganttData.value, suffixes)
  {
    if ganttData == None || |ganttData.value| == 0 then NoTasksMessage
    else Chart(ProcessData(ganttData.value, suffixes))
  }

  /** The fields the Gantt library needs are never empty after normalisation,
      and the group style goes with exactly the tasks of type `'group'`. */
  lemma ProcessedTaskSound(task: RawTask, suffix: string)
    ensures var t := ProcessTask(task, suffix);
            && Truthy(t.id) && Truthy(t.name) && Truthy(t.kind) && Truthy(t.dependencies)
            && (t.customClass == "group-task" <==> t.kind == Str("group"))
            && (t.parent.Some? ==> Truthy(t.parent.value))
  {
  }

  /** A normalised task read back as a raw task (its start and end given as
      the values `start` and `end`). */
  function AsRaw(t: GanttTask, start: JsValue, end: JsValue): RawTask {
    RawTask(t.id, t.name, start, end, t.progress, t.kind, t.hideChildren, t.dependencies,
            if t.parent.Some? then t.parent.value else Undefined)
  }

  /** Normalising twice changes nothing: a normalised task, put through the
      normalisation again with any suffix, keeps every field. */
  lemma ProcessTaskIdempotent(task: RawTask, suffix: string, suffix': string)
    ensures var t := ProcessTask(task, suffix);
            ProcessTask(AsRaw(t, t.start, t.end), suffix') == t
  {
    var t := ProcessTask(task, suffix);
    assert Truthy(t.id) && Truthy(t.name) && Truthy(t.kind) && Truthy(t.dependencies);
  }
}
