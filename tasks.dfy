/**
 * A task record as `make_task_obj` builds it, the status strings the commands
 * write, and the two pure helpers `get_status` and `get_priority_style`.
 */
module Tasks {
  import opened Wrappers

  /** The `createdAt` / `updatedAt` object: the three formatted readings of the clock. */
  datatype Timestamp = Timestamp(date: string, time: string, twelveHour: string)

  /**
   * One value of the store. `status` is the raw JSON string: besides the three
   * intended values, `add` writes "in progress" (with a space) and `mark`
   * writes "N/A" when no flag is given.
   */
  datatype Task = Task(
    name: string,
    priority: int,
    description: string,
    status: string,
    createdAt: Timestamp,
    updatedAt: Timestamp)

  const StatusTodo: string := "todo"
  const StatusInProgress: string := "in-progress"
  const StatusDone: string := "done"
  /** What `add --in-progress` writes: not one of the three statuses `ls` knows. */
  const StatusInProgressSpaced: string := "in progress"
  /** What `mark` writes when none of its flags is set. */
  const StatusNotApplicable: string := "N/A"

  /** The statuses `ls` matches on; every other string falls through its `case _`. */
  predicate IsStandard(status: string) {
    status == StatusTodo || status == StatusInProgress || status == StatusDone
  }

  /** `get_status`: three flags resolved to one status, `done` first, then in-progress, then todo. */
  function GetStatus(done: bool, inProgress: bool, todo: bool): (s: string)
    ensures s == StatusDone <==> done
    ensures s == StatusInProgress <==> !done && inProgress
    ensures s == StatusTodo <==> !done && !inProgress && todo
    ensures s == StatusNotApplicable <==> !done && !inProgress && !todo
    ensures IsStandard(s) || s == StatusNotApplicable
  {
    if done then StatusDone
    else if inProgress then StatusInProgress
    else if todo then StatusTodo
    else StatusNotApplicable
  }

  /** `p_values`: the seven priority styles, most urgent first. */
  const PriorityStyles: seq<string> := ["red", "orange1", "yellow", "green", "blue", "purple", "white"]

  /**
   * The index `get_priority_style` reads from the seven-entry table:
   * `p - 1` below 7, the last entry from 7 on. The source does not guard
   * `p <= 0`; Python then indexes from the end of the list, and below -6
   * raises IndexError, modelled as None.
   */
  function PriorityIndex(p: int): (r: Option<nat>)
    ensures r.Some? ==> r.value < |PriorityStyles|
    ensures 1 <= p < 7 ==> r == Some(p - 1)
    ensures p >= 7 ==> r == Some(|PriorityStyles| - 1)
    ensures -6 <= p <= 0 ==> r == Some(p + 6)
    ensures r.None? <==> p < -6
  {
    if p < 7 then
      if p - 1 >= 0 then Some(p - 1)
      else if p - 1 >= -|PriorityStyles| then Some(|PriorityStyles| + (p - 1))
      else None
    else Some(6)
  }

  /** `get_priority_style`: the style a task of priority `p` is drawn with. */
  function PriorityStyle(p: int): (r: Option<string>)
    ensures p >= 1 ==> r.Some? && r.value == PriorityStyles[if p < 7 then p - 1 else 6]
    ensures r.None? <==> p < -6
  {
    match PriorityIndex(p)
    case Some(i) => Some(PriorityStyles[i])
    case None => None
  }

  /**
   * `make_task_obj`, with the clock read once as `now`: the record holds the
   * four given fields and was created and last updated at the same moment.
   */
  function MakeTask(name: string, priority: int, description: string, status: string, now: Timestamp): (t: Task)
    ensures t.name == name && t.priority == priority
    ensures t.description == description && t.status == status
    ensures t.createdAt == t.updatedAt == now
  {
    Task(name, priority, description, status, now, now)
  }

}
