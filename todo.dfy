/** The to-do list page (app/page.tsx): tasks with nested subtasks, kept
    in one list that every handler replaces whole with a `filter` or a
    `map` over it, and a handful of form fields the handlers set and clear.
    Ids come from `Date.now()` in the source and are parameters here; they
    are not assumed to be unique. */
module Todo {
  import opened Wrappers
  import opened Lists
  import opened JsText

  datatype Status = Pending | Running | Completed

  datatype SubTask = SubTask(id: string, title: string, status: Status)

  datatype Task = Task(id: string, title: string, status: Status, subtasks: seq<SubTask>)

  // Selectors and updates handed to `filter` and `map`.

  function TaskIdIs(id: string): Task -> bool {
    (t: Task) => t.id == id
  }

  function TaskIdIsNot(id: string): Task -> bool {
    (t: Task) => t.id != id
  }

  function SubTaskIdIs(id: string): SubTask -> bool {
    (s: SubTask) => s.id == id
  }

  function SubTaskIdIsNot(id: string): SubTask -> bool {
    (s: SubTask) => s.id != id
  }

  function Retitled(title: string): Task -> Task {
    (t: Task) => t.(title := title)
  }

  function WithStatus(status: Status): Task -> Task {
    (t: Task) => t.(status := status)
  }

  function WithSubTask(st: SubTask): Task -> Task {
    (t: Task) => t.(subtasks := t.subtasks + [st])
  }

  function WithoutSubTask(subId: string): Task -> Task {
    (t: Task) => t.(subtasks := Keep(t.subtasks, SubTaskIdIsNot(subId)))
  }

  function SubTaskWithStatus(status: Status): SubTask -> SubTask {
    (s: SubTask) => s.(status := status)
  }

  function WithSubTaskStatus(subId: string, status: Status): Task -> Task {
    (t: Task) => t.(subtasks := MapWhere(t.subtasks, SubTaskIdIs(subId), SubTaskWithStatus(status)))
  }

  /** Every task and every subtask has a title that is not blank: the
      handlers that store a title refuse blank ones. */
  predicate TaskFilled(t: Task) {
    !IsBlank(t.title) && forall s :: s in t.subtasks ==> !IsBlank(s.title)
  }

  predicate TitlesFilled(tasks: seq<Task>) {
    forall t :: t in tasks ==> TaskFilled(t)
  }

  /** `tasks.filter(task => task.id !== taskId)` (`deleteTask`). */
  function RemoveTask(tasks: seq<Task>, id: string): (r: seq<Task>)
    ensures |r| <= |tasks|
    ensures forall t :: t in r <==> t in tasks && t.id != id
  {
    Keep(tasks, TaskIdIsNot(id))
  }

  /** The tasks that survive a deletion keep their relative order. */
  lemma RemoveTaskKeepsOrder(a: seq<Task>, b: seq<Task>, id: string)
    ensures RemoveTask(a + b, id) == RemoveTask(a, id) + RemoveTask(b, id)
  {
    KeepConcat(a, b, TaskIdIsNot(id));
  }

  /** Deleting an id no task has leaves the list as it was. */
  lemma RemoveAbsentTask(tasks: seq<Task>, id: string)
    requires forall t :: t in tasks ==> t.id != id
    ensures RemoveTask(tasks, id) == tasks
  {
    KeepAll(tasks, TaskIdIsNot(id));
  }

  /** Deleting the same id twice is deleting it once. */
  lemma RemoveTaskIdempotent(tasks: seq<Task>, id: string)
    ensures RemoveTask(RemoveTask(tasks, id), id) == RemoveTask(tasks, id)
  {
    KeepIdempotent(tasks, TaskIdIsNot(id));
  }

  /** Deleting a task just added under an id no other task has restores
      the list. */
  lemma RemoveUndoesAppend(tasks: seq<Task>, t: Task)
    requires forall u :: u in tasks ==> u.id != t.id
    ensures RemoveTask(tasks + [t], t.id) == tasks
  {
    RemoveTaskKeepsOrder(tasks, [t], t.id);
    RemoveAbsentTask(tasks, t.id);
  }

  /** The `map` of `saveTaskEdit`: the matching tasks take the new title;
      ids, statuses and subtasks, and every other task, stay as they were. */
  function RenameTask(tasks: seq<Task>, id: string, title: string): (r: seq<Task>)
    ensures |r| == |tasks|
    ensures forall i :: 0 <= i < |tasks| ==>
      && r[i].id == tasks[i].id
      && r[i].status == tasks[i].status
      && r[i].subtasks == tasks[i].subtasks
      && r[i].title == if tasks[i].id == id then title else tasks[i].title
  {
    MapWhere(tasks, TaskIdIs(id), Retitled(title))
  }

  /** Renaming an id no task has changes nothing. */
  lemma RenameAbsentTask(tasks: seq<Task>, id: string, title: string)
    requires forall t :: t in tasks ==> t.id != id
    ensures RenameTask(tasks, id, title) == tasks
  {
    MapWhereNone(tasks, TaskIdIs(id), Retitled(title));
  }

  /** The last rename wins. */
  lemma RenameTwice(tasks: seq<Task>, id: string, first: string, second: string)
    ensures RenameTask(RenameTask(tasks, id, first), id, second) == RenameTask(tasks, id, second)
  {
    var once, twice := RenameTask(tasks, id, second), RenameTask(RenameTask(tasks, id, first), id, second);
    assert forall i :: 0 <= i < |tasks| ==> twice[i] == once[i];
  }

  /** The `map` of `updateTaskStatus`: the matching tasks take the status;
      titles and subtasks, and every other task, stay as they were. */
  function SetTaskStatus(tasks: seq<Task>, id: string, status: Status): (r: seq<Task>)
    ensures |r| == |tasks|
    ensures forall i :: 0 <= i < |tasks| ==>
      && r[i].id == tasks[i].id
      && r[i].title == tasks[i].title
      && r[i].subtasks == tasks[i].subtasks
      && r[i].status == if tasks[i].id == id then status else tasks[i].status
  {
    MapWhere(tasks, TaskIdIs(id), WithStatus(status))
  }

  /** Setting the status a task already has changes nothing. */
  lemma SetTaskStatusUnchanged(tasks: seq<Task>, id: string, status: Status)
    requires forall t :: t in tasks && t.id == id ==> t.status == status
    ensures SetTaskStatus(tasks, id, status) == tasks
  {
    var r := SetTaskStatus(tasks, id, status);
    forall i | 0 <= i < |tasks|
      ensures r[i] == tasks[i]
    {
      assert tasks[i] in tasks;
    }
  }

  /** The `map` of `addSubtask`: the subtask is appended to the matching
      tasks only; nothing else changes. */
  function AppendSubTask(tasks: seq<Task>, taskId: string, st: SubTask): (r: seq<Task>)
    ensures |r| == |tasks|
    ensures forall i :: 0 <= i < |tasks| ==>
      && r[i].id == tasks[i].id
      && r[i].title == tasks[i].title
      && r[i].status == tasks[i].status
      && r[i].subtasks == if tasks[i].id == taskId then tasks[i].subtasks + [st] else tasks[i].subtasks
  {
    MapWhere(tasks, TaskIdIs(taskId), WithSubTask(st))
  }

  /** The `map` of `deleteSubtask`: in the matching tasks, exactly the
      subtasks with the id are gone; nothing else changes. */
  function RemoveSubTask(tasks: seq<Task>, taskId: string, subId: string): (r: seq<Task>)
    ensures |r| == |tasks|
    ensures forall i :: 0 <= i < |tasks| ==>
      && r[i].id == tasks[i].id
      && r[i].title == tasks[i].title
      && r[i].status == tasks[i].status
      && (tasks[i].id != taskId ==> r[i].subtasks == tasks[i].subtasks)
    ensures forall i, s :: 0 <= i < |tasks| && tasks[i].id == taskId ==>
      (s in r[i].subtasks <==> s in tasks[i].subtasks && s.id != subId)
    ensures forall i :: 0 <= i < |tasks| && tasks[i].id == taskId ==>
      r[i].subtasks == Keep(tasks[i].subtasks, SubTaskIdIsNot(subId))
  {
    MapWhere(tasks, TaskIdIs(taskId), WithoutSubTask(subId))
  }

  /** The subtasks that survive a deletion keep their relative order and
      their number: each part of the list is filtered on its own. */
  lemma RemoveSubTaskKeepsOrder(tasks: seq<Task>, taskId: string, subId: string, i: int, a: seq<SubTask>, b: seq<SubTask>)
    requires 0 <= i < |tasks| && tasks[i].id == taskId && tasks[i].subtasks == a + b
    ensures RemoveSubTask(tasks, taskId, subId)[i].subtasks ==
      Keep(a, SubTaskIdIsNot(subId)) + Keep(b, SubTaskIdIsNot(subId))
  {
    KeepConcat(a, b, SubTaskIdIsNot(subId));
  }

  /** Deleting a subtask just added under an id no subtask of the task has
      restores the list. */
  lemma RemoveSubTaskUndoesAppend(tasks: seq<Task>, taskId: string, st: SubTask)
    requires forall t, s :: t in tasks && t.id == taskId && s in t.subtasks ==> s.id != st.id
    ensures RemoveSubTask(AppendSubTask(tasks, taskId, st), taskId, st.id) == tasks
  {
    var added := AppendSubTask(tasks, taskId, st);
    var r := RemoveSubTask(added, taskId, st.id);
    forall i | 0 <= i < |tasks|
      ensures r[i] == tasks[i]
    {
      if tasks[i].id == taskId {
        assert tasks[i] in tasks;
        var subs := tasks[i].subtasks;
        KeepConcat(subs, [st], SubTaskIdIsNot(st.id));
        KeepAll(subs, SubTaskIdIsNot(st.id));
        assert Keep([st], SubTaskIdIsNot(st.id)) == [];
        assert r[i].subtasks == Keep(subs + [st], SubTaskIdIsNot(st.id));
      }
    }
  }

  /** The `map` of `updateSubtaskStatus`: only the named subtasks of the
      named tasks take the status; nothing else changes. */
  function SetSubTaskStatus(tasks: seq<Task>, taskId: string, subId: string, status: Status): (r: seq<Task>)
    ensures |r| == |tasks|
    ensures forall i :: 0 <= i < |tasks| ==>
      && r[i].id == tasks[i].id
      && r[i].title == tasks[i].title
      && r[i].status == tasks[i].status
      && |r[i].subtasks| == |tasks[i].subtasks|
      && (tasks[i].id != taskId ==> r[i].subtasks == tasks[i].subtasks)
    ensures forall i, j :: 0 <= i < |tasks| && 0 <= j < |tasks[i].subtasks| ==>
      && r[i].subtasks[j].id == tasks[i].subtasks[j].id
      && r[i].subtasks[j].title == tasks[i].subtasks[j].title
      && r[i].subtasks[j].status ==
           if tasks[i].id == taskId && tasks[i].subtasks[j].id == subId then status
           else tasks[i].subtasks[j].status
  {
    MapWhere(tasks, TaskIdIs(taskId), WithSubTaskStatus(subId, status))
  }

  /** Renaming to a title that is not blank keeps every title filled. */
  lemma RenameKeepsTitlesFilled(tasks: seq<Task>, id: string, title: string)
    requires TitlesFilled(tasks) && !IsBlank(title)
    ensures TitlesFilled(RenameTask(tasks, id, title))
  {
    var r := RenameTask(tasks, id, title);
    forall t | t in r
      ensures TaskFilled(t)
    {
      var i :| 0 <= i < |r| && r[i] == t;
      assert tasks[i] in tasks;
    }
  }

  /** A status change keeps every title filled. */
  lemma SetTaskStatusKeepsTitlesFilled(tasks: seq<Task>, id: string, status: Status)
    requires TitlesFilled(tasks)
    ensures TitlesFilled(SetTaskStatus(tasks, id, status))
  {
    var r := SetTaskStatus(tasks, id, status);
    forall t | t in r
      ensures TaskFilled(t)
    {
      var i :| 0 <= i < |r| && r[i] == t;
      assert tasks[i] in tasks;
    }
  }

  /** Appending a subtask whose title is not blank keeps every title
      filled. */
  lemma AppendSubTaskKeepsTitlesFilled(tasks: seq<Task>, taskId: string, st: SubTask)
    requires TitlesFilled(tasks) && !IsBlank(st.title)
    ensures TitlesFilled(AppendSubTask(tasks, taskId, st))
  {
    var r := AppendSubTask(tasks, taskId, st);
    forall t | t in r
      ensures TaskFilled(t)
    {
      var i :| 0 <= i < |r| && r[i] == t;
      assert tasks[i] in tasks;
      if tasks[i].id == taskId {
        SubTaskAddedFilled(tasks[i], st);
        assert t == WithSubTask(st)(tasks[i]);
      } else {
        assert t == tasks[i];
      }
    }
  }

  lemma SubTaskAddedFilled(t: Task, st: SubTask)
    requires TaskFilled(t) && !IsBlank(st.title)
    ensures TaskFilled(WithSubTask(st)(t))
  {
    var u := WithSubTask(st)(t);
    assert u.title == t.title && u.subtasks == t.subtasks + [st];
    forall s | s in u.subtasks
      ensures !IsBlank(s.title)
    {
      if s != st {
        assert s in t.subtasks;
      }
    }
  }

  /** Deleting subtasks keeps every title filled. */
  lemma RemoveSubTaskKeepsTitlesFilled(tasks: seq<Task>, taskId: string, subId: string)
    requires TitlesFilled(tasks)
    ensures TitlesFilled(RemoveSubTask(tasks, taskId, subId))
  {
    var r := RemoveSubTask(tasks, taskId, subId);
    forall t | t in r
      ensures TaskFilled(t)
    {
      var i :| 0 <= i < |r| && r[i] == t;
      assert tasks[i] in tasks;
    }
  }

  /** A subtask status change keeps every title filled. */
  lemma SetSubTaskStatusKeepsTitlesFilled(tasks: seq<Task>, taskId: string, subId: string, status: Status)
    requires TitlesFilled(tasks)
    ensures TitlesFilled(SetSubTaskStatus(tasks, taskId, subId, status))
  {
    var r := SetSubTaskStatus(tasks, taskId, subId, status);
    forall t | t in r
      ensures TaskFilled(t)
    {
      var i :| 0 <= i < |r| && r[i] == t;
      assert tasks[i] in tasks;
      forall s | s in t.subtasks
        ensures !IsBlank(s.title)
      {
        var j :| 0 <= j < |t.subtasks| && t.subtasks[j] == s;
        assert tasks[i].subtasks[j] in tasks[i].subtasks;
      }
    }
  }

  /** The page's state. */
  class TodoPage {
    var tasks: seq<Task>
    var newTaskTitle: string
    var editingTaskId: Option<string>
    var editingTaskTitle: string
    var newSubtaskTitle: string
    var activeTaskForSubtask: Option<string>

    /** Between handlers no stored title is blank. */
    ghost predicate Valid()
      reads this
    {
      TitlesFilled(tasks)
    }

    /** The initial `useState` values. */
    constructor ()
      ensures Valid()
      ensures tasks == [] && newTaskTitle == "" && editingTaskId == None
      ensures editingTaskTitle == "" && newSubtaskTitle == "" && activeTaskForSubtask == None
    {
      tasks := [];
      newTaskTitle := "";
      editingTaskId := None;
      editingTaskTitle := "";
      newSubtaskTitle := "";
      activeTaskForSubtask := None;
    }

    /** `addTask`: a title that is not blank is appended, untrimmed, as a
        pending task without subtasks, and the input is cleared; a blank
        title changes nothing. */
    method AddTask(id: string)
      requires Valid()
      modifies this`tasks, this`newTaskTitle
      ensures Valid()
      ensures !IsBlank(old(newTaskTitle)) ==>
        tasks == old(tasks) + [Task(id, old(newTaskTitle), Pending, [])] && newTaskTitle == ""
      ensures IsBlank(old(newTaskTitle)) ==> tasks == old(tasks) && newTaskTitle == old(newTaskTitle)
    {
      if !IsBlank(newTaskTitle) {
        tasks := tasks + [Task(id, newTaskTitle, Pending, [])];
        newTaskTitle := "";
      }
    }

    /** `deleteTask` */
    method DeleteTask(taskId: string)
      requires Valid()
      modifies this`tasks
      ensures Valid()
      ensures tasks == RemoveTask(old(tasks), taskId)
    {
      tasks := RemoveTask(tasks, taskId);
    }

    /** `startEditingTask`: remembers the task's id and title. */
    method StartEditingTask(task: Task)
      modifies this`editingTaskId, this`editingTaskTitle
      ensures editingTaskId == Some(task.id) && editingTaskTitle == task.title
    {
      editingTaskId := Some(task.id);
      editingTaskTitle := task.title;
    }

    /** `saveTaskEdit`: a title that is not blank renames the task being
        edited (a `null` id matches no task) and ends the edit; a blank
        title changes nothing. */
    method SaveTaskEdit()
      requires Valid()
      modifies this`tasks, this`editingTaskId, this`editingTaskTitle
      ensures Valid()
      ensures !IsBlank(old(editingTaskTitle)) ==>
        && tasks == (if old(editingTaskId).Some?
                     then RenameTask(old(tasks), old(editingTaskId).value, old(editingTaskTitle))
                     else old(tasks))
        && editingTaskId == None && editingTaskTitle == ""
      ensures IsBlank(old(editingTaskTitle)) ==>
        tasks == old(tasks) && editingTaskId == old(editingTaskId) && editingTaskTitle == old(editingTaskTitle)
    {
      if !IsBlank(editingTaskTitle) {
        if editingTaskId.Some? {
          RenameKeepsTitlesFilled(tasks, editingTaskId.value, editingTaskTitle);
          tasks := RenameTask(tasks, editingTaskId.value, editingTaskTitle);
        }
        editingTaskId := None;
        editingTaskTitle := "";
      }
    }

    /** `cancelTaskEdit`: ends the edit, tasks untouched. */
    method CancelTaskEdit()
      modifies this`editingTaskId, this`editingTaskTitle
      ensures editingTaskId == None && editingTaskTitle == ""
    {
      editingTaskId := None;
      editingTaskTitle := "";
    }

    /** `updateTaskStatus` */
    method UpdateTaskStatus(taskId: string, status: Status)
      requires Valid()
      modifies this`tasks
      ensures Valid()
      ensures tasks == SetTaskStatus(old(tasks), taskId, status)
    {
      SetTaskStatusKeepsTitlesFilled(tasks, taskId, status);
      tasks := SetTaskStatus(tasks, taskId, status);
    }

    /** The "+ subtask" button: opens the subtask form for a task. */
    method OpenSubtaskForm(taskId: string)
      modifies this`activeTaskForSubtask
      ensures activeTaskForSubtask == Some(taskId)
    {
      activeTaskForSubtask := Some(taskId);
    }

    /** The subtask form's cancel button: closes it and clears its input. */
    method CloseSubtaskForm()
      modifies this`activeTaskForSubtask, this`newSubtaskTitle
      ensures activeTaskForSubtask == None && newSubtaskTitle == ""
    {
      activeTaskForSubtask := None;
      newSubtaskTitle := "";
    }

    /** `addSubtask`: a title that is not blank is appended, untrimmed, as
        a pending subtask of the matching tasks, and the form is closed and
        cleared; a blank title changes nothing. */
    method AddSubtask(taskId: string, id: string)
      requires Valid()
      modifies this`tasks, this`newSubtaskTitle, this`activeTaskForSubtask
      ensures Valid()
      ensures !IsBlank(old(newSubtaskTitle)) ==>
        && tasks == AppendSubTask(old(tasks), taskId, SubTask(id, old(newSubtaskTitle), Pending))
        && newSubtaskTitle == "" && activeTaskForSubtask == None
      ensures IsBlank(old(newSubtaskTitle)) ==>
        && tasks == old(tasks) && newSubtaskTitle == old(newSubtaskTitle)
        && activeTaskForSubtask == old(activeTaskForSubtask)
    {
      if !IsBlank(newSubtaskTitle) {
        AppendSubTaskKeepsTitlesFilled(tasks, taskId, SubTask(id, newSubtaskTitle, Pending));
        tasks := AppendSubTask(tasks, taskId, SubTask(id, newSubtaskTitle, Pending));
        newSubtaskTitle := "";
        activeTaskForSubtask := None;
      }
    }

    /** `deleteSubtask` */
    method DeleteSubtask(taskId: string, subId: string)
      requires Valid()
      modifies this`tasks
      ensures Valid()
      ensures tasks == RemoveSubTask(old(tasks), taskId, subId)
    {
      RemoveSubTaskKeepsTitlesFilled(tasks, taskId, subId);
      tasks := RemoveSubTask(tasks, taskId, subId);
    }

    /** `updateSubtaskStatus` */
    method UpdateSubtaskStatus(taskId: string, subId: string, status: Status)
      requires Valid()
      modifies this`tasks
      ensures Valid()
      ensures tasks == SetSubTaskStatus(old(tasks), taskId, subId, status)
    {
      SetSubTaskStatusKeepsTitlesFilled(tasks, taskId, subId, status);
      tasks := SetSubTaskStatus(tasks, taskId, subId, status);
    }
  }
}
