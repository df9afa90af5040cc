/** The task-list data manager: a `Task` record whose one mutator marks it
    completed, and a `TodoList` owning an ordered list of tasks that it
    appends to, completes and deletes by position, and sorts in place by one
    of three keys.

    Timestamps are integers: the creation time is passed to the constructor
    instead of being read from a clock, and a due date is an optional
    integer. Priorities are strings compared the way Python compares `str`. */
module Todo {
  import opened Wrappers
  import opened Ordering
  import opened Sorting

  /** The record `Task.to_dict` builds from a task's fields. */
  datatype TaskRecord = TaskRecord(
    title: string,
    description: string,
    priority: string,
    createdAt: int,
    dueDate: Option<int>,
    completed: bool)

  class Task {
    var title: string
    var description: string
    var priority: string
    var createdAt: int
    var dueDate: Option<int>
    var completed: bool

    /** A new task is not completed and keeps the given fields; the
        priority defaults to "Low" and the due date to none. */
    constructor (createdAt: int, title: string, description: string,
                 priority: string := "Low", dueDate: Option<int> := None)
      ensures ToDict() == TaskRecord(title, description, priority, createdAt, dueDate, false)
    {
      this.title := title;
      this.description := description;
      this.priority := priority;
      this.createdAt := createdAt;
      this.dueDate := dueDate;
      this.completed := false;
    }

    /** Marks the task completed and changes nothing else. */
    method CompleteTask()
      modifies this
      ensures ToDict() == old(ToDict()).(completed := true)
    {
      completed := true;
    }

    /** The task's fields as a record. */
    function ToDict(): (r: TaskRecord)
      reads this
      ensures r.title == title && r.description == description && r.priority == priority
      ensures r.createdAt == createdAt && r.dueDate == dueDate && r.completed == completed
    {
      TaskRecord(title, description, priority, createdAt, dueDate, completed)
    }
  }

  /** The records of `ts`, in order. */
  ghost function RecordsOf(ts: seq<Task>): (r: seq<TaskRecord>)
    reads ts
    ensures |r| == |ts|
    ensures forall i :: 0 <= i < |ts| ==> r[i] == ts[i].ToDict()
  {
    seq(|ts|, i reads ts requires 0 <= i < |ts| => ts[i].ToDict())
  }

  /** The records of a list after the task object at position `i` is
      marked completed. A list may hold the same task object at several
      positions; all of them show the change, as they share one object.
      An out-of-range `i` changes nothing. */
  function MarkCompleted<Id(==)>(rs: seq<TaskRecord>, ids: seq<Id>, i: int): (r: seq<TaskRecord>)
    requires |rs| == |ids|
    ensures |r| == |rs|
  {
    seq(|rs|, j requires 0 <= j < |rs| =>
      if 0 <= i < |ids| && ids[j] == ids[i] then rs[j].(completed := true) else rs[j])
  }

  /** `s` without its element at position `i`, or `s` itself when `i` is
      out of range. */
  function RemoveAt<T>(s: seq<T>, i: int): (r: seq<T>)
    ensures 0 <= i < |s| ==> |r| == |s| - 1
    ensures !(0 <= i < |s|) ==> r == s
  {
    if 0 <= i < |s| then s[..i] + s[i + 1..] else s
  }

  /** The sort key of each sort option, paired with its task. */
  function ByPriority(ts: seq<Task>): (r: seq<(string, Task)>)
    reads ts
    ensures |r| == |ts| && forall i :: 0 <= i < |ts| ==> r[i] == (ts[i].priority, ts[i])
  {
    seq(|ts|, i reads ts requires 0 <= i < |ts| => (ts[i].priority, ts[i]))
  }

  function ByCreation(ts: seq<Task>): (r: seq<(int, Task)>)
    reads ts
    ensures |r| == |ts| && forall i :: 0 <= i < |ts| ==> r[i] == (ts[i].createdAt, ts[i])
  {
    seq(|ts|, i reads ts requires 0 <= i < |ts| => (ts[i].createdAt, ts[i]))
  }

  /** The due date as a sort key. A missing due date gets a placeholder;
      it is only ever used when no comparison takes place. */
  function DueKey(t: Task): (k: int)
    reads t
    ensures t.dueDate.Some? ==> k == t.dueDate.value
    ensures t.dueDate.None? ==> k == 0
  {
    match t.dueDate
    case Some(d) => d
    case None => 0
  }

  function ByDueDate(ts: seq<Task>): (r: seq<(int, Task)>)
    reads ts
    ensures |r| == |ts| && forall i :: 0 <= i < |ts| ==> r[i] == (DueKey(ts[i]), ts[i])
  {
    seq(|ts|, i reads ts requires 0 <= i < |ts| => (DueKey(ts[i]), ts[i]))
  }

  /** Sorting by due date compares due dates with each other, which fails
      for a missing one; with fewer than two tasks nothing is compared. */
  ghost predicate DueDatesComparable(ts: seq<Task>)
    reads ts
    ensures |ts| < 2 ==> DueDatesComparable(ts)
    ensures (forall i :: 0 <= i < |ts| ==> ts[i].dueDate.Some?) ==> DueDatesComparable(ts)
    ensures DueDatesComparable(ts) && |ts| >= 2 ==> forall i :: 0 <= i < |ts| ==> ts[i].dueDate.Some?
  {
    |ts| < 2 || forall i :: 0 <= i < |ts| ==> ts[i].dueDate.Some?
  }

  class TodoList {
    var tasks: seq<Task>

    /** A new list is empty. */
    constructor ()
      ensures tasks == []
    {
      tasks := [];
    }

    /** Appends `task`; nothing else changes. */
    method AddTask(task: Task)
      modifies this
      ensures tasks == old(tasks) + [task]
    {
      tasks := tasks + [task];
    }

    /** Marks the task at `taskId` completed, or does nothing when `taskId`
        is out of range. The list itself keeps its order and length. */
    method CompleteTask(taskId: int)
      modifies if 0 <= taskId < |tasks| then {tasks[taskId]} else {}
      ensures tasks == old(tasks)
      ensures RecordsOf(tasks) == MarkCompleted(old(RecordsOf(tasks)), tasks, taskId)
    {
      if 0 <= taskId < |tasks| {
        var task := tasks[taskId];
        task.CompleteTask();
      }
    }

    /** Removes the task at `taskId`, or does nothing when `taskId` is out
        of range. */
    method DeleteTask(taskId: int)
      modifies this
      ensures tasks == RemoveAt(old(tasks), taskId)
    {
      if 0 <= taskId < |tasks| {
        tasks := tasks[..taskId] + tasks[taskId + 1..];
      }
    }

    /** Sorts the tasks stably by priority string, due date or creation
        time; any other option leaves the list as it is. */
    method SortTasks(sortOption: string)
      requires sortOption == "Due Date" ==> DueDatesComparable(tasks)
      modifies this
      ensures multiset(tasks) == multiset(old(tasks))
      ensures sortOption == "Priority" ==>
        tasks == old(Values(SortBy(ByPriority(tasks), StrLess))) &&
        forall i, j :: 0 <= i < j < |tasks| ==> !StrLess(tasks[j].priority, tasks[i].priority)
      ensures sortOption == "Due Date" ==>
        tasks == old(Values(SortBy(ByDueDate(tasks), IntLess))) &&
        forall i, j :: 0 <= i < j < |tasks| ==>
          tasks[i].dueDate.Some? && tasks[j].dueDate.Some? && tasks[i].dueDate.value <= tasks[j].dueDate.value
      ensures sortOption == "Creation Date" ==>
        tasks == old(Values(SortBy(ByCreation(tasks), IntLess))) &&
        forall i, j :: 0 <= i < j < |tasks| ==> tasks[i].createdAt <= tasks[j].createdAt
      ensures sortOption != "Priority" && sortOption != "Due Date" && sortOption != "Creation Date" ==>
        tasks == old(tasks)
    {
      if sortOption == "Priority" {
        PrioritySortOrders(tasks);
        tasks := Values(SortBy(ByPriority(tasks), StrLess));
      } else if sortOption == "Due Date" {
        DueDateSortOrders(tasks);
        tasks := Values(SortBy(ByDueDate(tasks), IntLess));
      } else if sortOption == "Creation Date" {
        CreationSortOrders(tasks);
        tasks := Values(SortBy(ByCreation(tasks), IntLess));
      }
    }
  }

  /** Sorting by priority reorders the tasks so that their priority
      strings ascend. */
  lemma PrioritySortOrders(ts: seq<Task>)
    ensures var r := Values(SortBy(ByPriority(ts), StrLess));
      && multiset(r) == multiset(ts)
      && forall i, j :: 0 <= i < j < |r| ==> !StrLess(r[j].priority, r[i].priority)
    ensures SameOrderPerKey(SortBy(ByPriority(ts), StrLess), ByPriority(ts))
  {
    var p := ByPriority(ts);
    var s := SortBy(p, StrLess);
    StrLessIsStrictTotalOrder();
    SortByFacts(p, StrLess);
    assert Values(p) == ts;
    forall i | 0 <= i < |s| ensures s[i].0 == s[i].1.priority {
      assert s[i] in p;
    }
  }

  /** Sorting by due date reorders the tasks so that their due dates
      ascend. */
  lemma DueDateSortOrders(ts: seq<Task>)
    requires DueDatesComparable(ts)
    ensures var r := Values(SortBy(ByDueDate(ts), IntLess));
      && multiset(r) == multiset(ts)
      && forall i, j :: 0 <= i < j < |r| ==>
           r[i].dueDate.Some? && r[j].dueDate.Some? && r[i].dueDate.value <= r[j].dueDate.value
    ensures SameOrderPerKey(SortBy(ByDueDate(ts), IntLess), ByDueDate(ts))
  {
    var p := ByDueDate(ts);
    var s := SortBy(p, IntLess);
    IntLessIsStrictTotalOrder();
    SortByFacts(p, IntLess);
    assert Values(p) == ts;
    forall i | 0 <= i < |s| ensures s[i].0 == DueKey(s[i].1) && s[i].1 in ts {
      assert s[i] in p;
    }
  }

  /** Sorting by creation time reorders the tasks so that their creation
      times ascend. */
  lemma CreationSortOrders(ts: seq<Task>)
    ensures var r := Values(SortBy(ByCreation(ts), IntLess));
      && multiset(r) == multiset(ts)
      && forall i, j :: 0 <= i < j < |r| ==> r[i].createdAt <= r[j].createdAt
    ensures SameOrderPerKey(SortBy(ByCreation(ts), IntLess), ByCreation(ts))
  {
    var p := ByCreation(ts);
    var s := SortBy(p, IntLess);
    IntLessIsStrictTotalOrder();
    SortByFacts(p, IntLess);
    assert Values(p) == ts;
    forall i | 0 <= i < |s| ensures s[i].0 == s[i].1.createdAt {
      assert s[i] in p;
    }
  }

  /** Sorting by creation time a list whose creation times already ascend,
      as they do when tasks are added as they are created, keeps the
      insertion order. */
  lemma CreationSortKeepsInsertionOrder(ts: seq<Task>)
    requires forall i, j :: 0 <= i < j < |ts| ==> ts[i].createdAt <= ts[j].createdAt
    ensures Values(SortBy(ByCreation(ts), IntLess)) == ts
  {
    IntLessIsStrictTotalOrder();
    SortByKeepsSorted(ByCreation(ts), IntLess);
    assert Values(ByCreation(ts)) == ts;
  }

  /** Priorities "Normal", "High", "Low" come out as "High", "Low",
      "Normal": alphabetical, not by severity. */
  lemma PrioritySortExample(normal: Task, high: Task, low: Task)
    requires normal.priority == "Normal" && high.priority == "High" && low.priority == "Low"
    ensures Values(SortBy(ByPriority([normal, high, low]), StrLess)) == [high, low, normal]
  {
    assert ByPriority([normal, high, low]) == [("Normal", normal), ("High", high), ("Low", low)];
    SortLabels(normal, high, low);
  }

  lemma SortLabels<V>(n: V, h: V, l: V)
    ensures Values(SortBy([("Normal", n), ("High", h), ("Low", l)], StrLess)) == [h, l, n]
  {
    var pn: (string, V), ph: (string, V), pl: (string, V) := ("Normal", n), ("High", h), ("Low", l);
    PriorityLabelsAlphabetical();
    assert !StrLess("Low", "High") by {
      assert "Low"[0] == 'L' && "High"[0] == 'H';
    }
    assert [pn, ph, pl][1..] == [ph, pl] && [ph, pl][1..] == [pl] && [pl][1..] == [];
    assert SortBy([pl], StrLess) == [pl];
    assert Insert(ph, [pl], StrLess) == [ph, pl];
    assert SortBy([ph, pl], StrLess) == [ph, pl];
    assert Insert(pn, [pl], StrLess) == [pl, pn];
    assert Insert(pn, [ph, pl], StrLess) == [ph] + Insert(pn, [pl], StrLess);
    assert SortBy([pn, ph, pl], StrLess) == [ph, pl, pn];
  }

  /** Completing a task changes exactly the positions holding that task
      object: they become completed and keep every other field, and every
      other position is unchanged. */
  lemma MarkCompletedChanges<Id>(rs: seq<TaskRecord>, ids: seq<Id>, i: int)
    requires |rs| == |ids| && 0 <= i < |ids|
    ensures var r := MarkCompleted(rs, ids, i);
      && r[i] == rs[i].(completed := true)
      && (forall j :: 0 <= j < |rs| && ids[j] == ids[i] ==> r[j] == rs[j].(completed := true))
      && (forall j :: 0 <= j < |rs| && ids[j] != ids[i] ==> r[j] == rs[j])
  {
  }

  /** With every task object held once, completing position `i` changes
      that position and no other. */
  lemma MarkCompletedDistinct<Id>(rs: seq<TaskRecord>, ids: seq<Id>, i: int)
    requires |rs| == |ids| && 0 <= i < |ids|
    requires forall j, k :: 0 <= j < k < |ids| ==> ids[j] != ids[k]
    ensures MarkCompleted(rs, ids, i) == rs[i := rs[i].(completed := true)]
  {
    var r := MarkCompleted(rs, ids, i);
    forall j | 0 <= j < |rs| ensures r[j] == rs[i := rs[i].(completed := true)][j] {
      if j != i {
        assert ids[j] != ids[i] by {
          if j < i { assert ids[j] != ids[i]; } else { assert ids[i] != ids[j]; }
        }
      }
    }
  }

  /** Completing with an out-of-range position changes nothing. */
  lemma MarkCompletedOutOfRange<Id>(rs: seq<TaskRecord>, ids: seq<Id>, i: int)
    requires |rs| == |ids| && !(0 <= i < |ids|)
    ensures MarkCompleted(rs, ids, i) == rs
  {
  }

  /** Completing the same position twice is the same as completing it
      once. */
  lemma MarkCompletedIdempotent<Id>(rs: seq<TaskRecord>, ids: seq<Id>, i: int)
    requires |rs| == |ids|
    ensures MarkCompleted(MarkCompleted(rs, ids, i), ids, i) == MarkCompleted(rs, ids, i)
  {
  }

  /** Deleting position `i` keeps the elements before it and shifts the
      ones after it down by one. */
  lemma RemoveAtElements<T>(s: seq<T>, i: int)
    requires 0 <= i < |s|
    ensures var r := RemoveAt(s, i);
      && (forall k :: 0 <= k < i ==> r[k] == s[k])
      && (forall k :: i <= k < |r| ==> r[k] == s[k + 1])
  {
  }

  /** Deleting only drops the one element at position `i`. */
  lemma RemoveAtPermutation<T>(s: seq<T>, i: int)
    requires 0 <= i < |s|
    ensures multiset(RemoveAt(s, i)) + multiset{s[i]} == multiset(s)
  {
    assert s == s[..i] + [s[i]] + s[i + 1..];
  }

  /** Deleting the last position undoes an append. */
  lemma RemoveAtUndoesAppend<T>(s: seq<T>, x: T)
    ensures RemoveAt(s + [x], |s|) == s
  {
    assert (s + [x])[..|s|] == s;
  }

  /** Tasks added one after another are read back in insertion order. */
  method AddSession()
  {
    var list := new TodoList();
    var report := new Task(1, "Write", "quarterly report", "Normal");
    var bank := new Task(2, "Call", "the bank", "High");
    var milk := new Task(3, "Buy", "milk");
    list.AddTask(report);
    list.AddTask(bank);
    list.AddTask(milk);
    assert list.tasks == [report, bank, milk];
    assert !report.completed && milk.priority == "Low" && milk.dueDate == None;
  }

  /** Completing the second of three tasks, twice, completes it alone; an
      out-of-range delete then changes nothing. */
  method CompleteSession(list: TodoList, report: Task, bank: Task, milk: Task)
    requires list.tasks == [report, bank, milk]
    requires report != bank && bank != milk && report != milk
    requires !report.completed && !bank.completed && !milk.completed
    modifies list, bank
  {
    list.CompleteTask(1);
    assert RecordsOf(list.tasks)[1].completed && !RecordsOf(list.tasks)[0].completed;
    assert bank.completed && !report.completed && !milk.completed;
    list.CompleteTask(1);
    assert bank.completed && !report.completed && !milk.completed;
    list.DeleteTask(3);
    assert list.tasks == [report, bank, milk];
  }

  /** Sorting by priority puts "High" before "Low" before "Normal". */
  method SortSession(list: TodoList, normal: Task, high: Task, low: Task)
    requires list.tasks == [normal, high, low]
    requires normal.priority == "Normal" && high.priority == "High" && low.priority == "Low"
    modifies list
  {
    list.SortTasks("Priority");
    PrioritySortExample(normal, high, low);
    assert list.tasks == [high, low, normal];
  }
}
