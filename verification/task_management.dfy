/**
 * The task management view: its state fields, the mount-time load, the
 * three "add" handlers and the task table's roommate join. Each handler
 * receives the outcome of every request it would await as a parameter and
 * returns the requests it actually issued, in order.
 */
module TaskManagement {
  import opened Outcomes
  import opened Roommates

  /** A calendar date; its rendering is not modelled, so only equality matters. */
  datatype Date = Date(day: int)

  /** A completed-task record as the server stores it; `completedBy` is a roommate id. */
  datatype Task = Task(id: string, name: string, dateCompleted: Date, completedBy: string)

  /** A catalog entry naming a kind of chore. */
  datatype TaskType = TaskType(name: string)

  /** The body Add Task posts: the three selections, the date possibly still unset. */
  datatype NewTask = NewTask(name: string, dateCompleted: Option<Date>, completedBy: string)

  /** The requests the view sends through the shared HTTP client. */
  datatype Request =
    | GetTasks
    | GetRoommates
    | GetTaskTypes
    | PostTask(task: NewTask)
    | PostRoommate(name: string)
    | PostTaskType(name: string)

  /**
   * One row of the task table. `completedBy` is None (`undefined`) when no roommate matches;
   * a matching roommate with an empty name is Some(""). Both render as a blank cell.
   */
  datatype TaskRow = TaskRow(name: string, dateCompleted: Date, completedBy: Option<string>)

  /** The catalog built from the loaded task types: their names, in order. */
  function TypeNames(types: seq<TaskType>): (names: seq<string>)
    ensures |names| == |types|
    ensures forall i :: 0 <= i < |types| ==> names[i] == types[i].name
  {
    if types == [] then [] else [types[0].name] + TypeNames(types[1..])
  }

  /** The "Completed By" cell: the name of the roommate the task names, or None when nobody matches. */
  function CompletedByCell(roommates: seq<Roommate>, task: Task): (cell: Option<string>)
    ensures cell.None? <==> !HasId(roommates, task.completedBy)
    ensures cell.Some? ==>
      exists i :: 0 <= i < |roommates| && roommates[i].id == task.completedBy && roommates[i].name == cell.value
  {
    match FindById(roommates, task.completedBy)
    case Some(r) =>
      assert r in roommates;
      Some(r.name)
    case None => None
  }

  /** The cell shows the name of the FIRST roommate carrying the task's `completedBy` id. */
  lemma CompletedByCellIsFirst(roommates: seq<Roommate>, task: Task, k: nat)
    requires k < |roommates| && roommates[k].id == task.completedBy
    requires forall j :: 0 <= j < k ==> roommates[j].id != task.completedBy
    ensures CompletedByCell(roommates, task) == Some(roommates[k].name)
  {
    FindByIdIsFirst(roommates, task.completedBy, k);
  }

  /**
   * After roommates are appended (Add Roommate's update before its re-fetch),
   * a cell that had a matching roommate keeps its name; a cell with no match may now resolve
   * to one of the appended roommates.
   */
  lemma CompletedByCellAppend(roommates: seq<Roommate>, added: seq<Roommate>, task: Task)
    ensures CompletedByCell(roommates + added, task)
         == if CompletedByCell(roommates, task).Some? then CompletedByCell(roommates, task)
            else CompletedByCell(added, task)
  {
    FindByIdAppend(roommates, added, task.completedBy);
  }

  function RowOf(roommates: seq<Roommate>, task: Task): TaskRow
  {
    TaskRow(task.name, task.dateCompleted, CompletedByCell(roommates, task))
  }

  /** The task table: one row per task, in the task list's order. */
  function TaskTable(tasks: seq<Task>, roommates: seq<Roommate>): (rows: seq<TaskRow>)
    ensures |rows| == |tasks|
    ensures forall i :: 0 <= i < |tasks| ==> rows[i] == RowOf(roommates, tasks[i])
  {
    if tasks == [] then [] else [RowOf(roommates, tasks[0])] + TaskTable(tasks[1..], roommates)
  }

  /** Appending a task appends exactly its row and leaves the earlier rows alone. */
  lemma TaskTableAppend(tasks: seq<Task>, roommates: seq<Roommate>, task: Task)
    ensures TaskTable(tasks + [task], roommates) == TaskTable(tasks, roommates) + [RowOf(roommates, task)]
  {
  }

  /** Alice's dishes: the table row shows the task name, its date and "Alice". */
  lemma AliceDishesScenario(date: Date)
    ensures TaskTable([Task("t1", "Dishes", date, "1")], [Roommate("1", "Alice")])
         == [TaskRow("Dishes", date, Some("Alice"))]
  {
  }

  /** No two catalog entries are equal. */
  predicate Distinct(names: seq<string>)
  {
    forall i, j :: 0 <= i < j < |names| ==> names[i] != names[j]
  }

  /** The state fields of the view. */
  class Component {
    var tasks: seq<Task>
    var roommates: seq<Roommate>
    var predefinedTasks: seq<string>
    var selectedTask: string
    var selectedDate: Option<Date>
    var selectedRoommate: string
    var newRoommate: string
    var newTaskType: string

    /** The task table as the current state renders it. */
    function Table(): seq<TaskRow>
      reads this
    {
      TaskTable(tasks, roommates)
    }

    /** Every list empty, every selection and input blank, no date picked. */
    constructor ()
      ensures tasks == [] && roommates == [] && predefinedTasks == []
      ensures selectedTask == "" && selectedDate == None && selectedRoommate == ""
      ensures newRoommate == "" && newTaskType == ""
    {
      tasks, roommates, predefinedTasks := [], [], [];
      selectedTask, selectedDate, selectedRoommate := "", None, "";
      newRoommate, newTaskType := "", "";
    }

    /**
     * The mount-time load. The three GETs are awaited one after another in
     * one try block, so a rejection skips the later requests, and the lists
     * are set only after all three have resolved: all of them or none.
     */
    method FetchData(
      tasksResponse: Response<seq<Task>>,
      roommatesResponse: Response<seq<Roommate>>,
      taskTypesResponse: Response<seq<TaskType>>)
      returns (issued: seq<Request>)
      modifies this`tasks, this`roommates, this`predefinedTasks
      ensures issued == [GetTasks]
        + (if tasksResponse.Resolved? then [GetRoommates] else [])
        + (if tasksResponse.Resolved? && roommatesResponse.Resolved? then [GetTaskTypes] else [])
      ensures tasksResponse.Resolved? && roommatesResponse.Resolved? && taskTypesResponse.Resolved? ==>
        && tasks == tasksResponse.data
        && roommates == roommatesResponse.data
        && predefinedTasks == TypeNames(taskTypesResponse.data)
      ensures tasksResponse.Rejected? || roommatesResponse.Rejected? || taskTypesResponse.Rejected? ==>
        tasks == old(tasks) && roommates == old(roommates) && predefinedTasks == old(predefinedTasks)
    {
      issued := [GetTasks];
      if tasksResponse.Rejected? {
        return;
      }
      issued := issued + [GetRoommates];
      if roommatesResponse.Rejected? {
        return;
      }
      issued := issued + [GetTaskTypes];
      if taskTypesResponse.Rejected? {
        return;
      }
      tasks := tasksResponse.data;
      roommates := roommatesResponse.data;
      predefinedTasks := TypeNames(taskTypesResponse.data);
    }

    /**
     * Add Task. No guard: the selections are posted whatever they hold. On
     * success the server's record is appended and the task and roommate
     * selections are cleared; the picked date is kept for the next entry.
     */
    method HandleAddTask(post: Response<Task>) returns (issued: seq<Request>)
      modifies this`tasks, this`selectedTask, this`selectedRoommate
      ensures issued == [PostTask(NewTask(old(selectedTask), selectedDate, old(selectedRoommate)))]
      ensures post.Resolved? ==>
        && tasks == old(tasks) + [post.data]
        && selectedTask == "" && selectedRoommate == ""
        && Table() == old(Table()) + [RowOf(roommates, post.data)]
      ensures post.Rejected? ==>
        tasks == old(tasks) && selectedTask == old(selectedTask) && selectedRoommate == old(selectedRoommate)
      ensures selectedDate == old(selectedDate)
    {
      var newTask := NewTask(selectedTask, selectedDate, selectedRoommate);
      issued := [PostTask(newTask)];
      if post.Resolved? {
        TaskTableAppend(tasks, roommates, post.data);
        tasks := tasks + [post.data];
        selectedTask := "";
        selectedRoommate := "";
      }
    }

    /**
     * Add Roommate, guarded on a non-empty name. After a successful POST the
     * returned roommate is appended and the input cleared; then the list is
     * fetched again and, if that succeeds, replaced by the fetched one.
     */
    method HandleAddRoommate(post: Response<Roommate>, refetch: Response<seq<Roommate>>)
      returns (issued: seq<Request>)
      modifies this`roommates, this`newRoommate
      ensures old(newRoommate) == "" ==>
        issued == [] && roommates == old(roommates) && newRoommate == old(newRoommate)
      ensures old(newRoommate) != "" && post.Rejected? ==>
        issued == [PostRoommate(old(newRoommate))] && roommates == old(roommates) && newRoommate == old(newRoommate)
      ensures old(newRoommate) != "" && post.Resolved? ==>
        && issued == [PostRoommate(old(newRoommate)), GetRoommates]
        && newRoommate == ""
        && roommates == if refetch.Resolved? then refetch.data else old(roommates) + [post.data]
    {
      issued := [];
      if newRoommate != "" {
        issued := [PostRoommate(newRoommate)];
        if post.Rejected? {
          return;
        }
        roommates := roommates + [post.data];
        newRoommate := "";
        issued := issued + [GetRoommates];
        if refetch.Rejected? {
          return;
        }
        roommates := refetch.data;
      }
    }

    /**
     * Add Task Type, guarded on a non-empty name that is not already in the
     * catalog (exact match). On success the name the server returns is
     * appended and the input cleared; a failure changes nothing.
     */
    method HandleAddTaskType(post: Response<TaskType>) returns (issued: seq<Request>)
      modifies this`predefinedTasks, this`newTaskType
      ensures old(newTaskType) == "" || old(newTaskType) in old(predefinedTasks) ==>
        issued == [] && predefinedTasks == old(predefinedTasks) && newTaskType == old(newTaskType)
      ensures old(newTaskType) != "" && old(newTaskType) !in old(predefinedTasks) ==>
        issued == [PostTaskType(old(newTaskType))]
      ensures old(newTaskType) != "" && old(newTaskType) !in old(predefinedTasks) && post.Resolved? ==>
        predefinedTasks == old(predefinedTasks) + [post.data.name] && newTaskType == ""
      ensures post.Rejected? ==> predefinedTasks == old(predefinedTasks) && newTaskType == old(newTaskType)
      ensures old(Distinct(predefinedTasks)) && post == Resolved(TaskType(old(newTaskType))) ==>
        Distinct(predefinedTasks)
    {
      issued := [];
      if newTaskType != "" && newTaskType !in predefinedTasks {
        issued := [PostTaskType(newTaskType)];
        if post.Resolved? {
          predefinedTasks := predefinedTasks + [post.data.name];
          newTaskType := "";
        }
      }
    }
  }
}
