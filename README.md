# To-do list data manager, modelled in Dafny

This project models the data core of a desktop to-do list program:

- A `Task` holds a title, a description, a priority, a creation time, an optional due date and a completed flag. Its one mutator marks it completed. `to_dict` projects its fields into a record.
- A `TodoList` owns an ordered list of tasks and changes it in place:
  - it appends a task;
  - it completes or deletes the task at a position, doing nothing when the position is out of range;
  - it sorts stably by priority, due date or creation time, chosen by a string option.

Files:

- `wrappers.dfy`: `Option`, used for the due date.
- `ordering.dfy`: the key orders. `StrLess` is Python's `<` on `str`, code point by code point. `IntLess` is used for timestamps. Both are proved to be strict total orders.
- `sorting.dfy`: a stable sort of (key, value) pairs. `SortBy` is an insertion sort. The lemmas prove that it returns a permutation, that the result is ordered by key, and that pairs with equal keys keep their order. They also prove that only one sequence has all three properties. So `SortBy` gives the same result as Python's `list.sort` (Timsort), even though the algorithm differs.
- `todo.dfy`: the `Task` and `TodoList` classes, the functions their contracts are stated with, the lemmas about those functions, and three short client sessions.

Modelling choices:

- `TodoList.tasks` is a `seq<Task>` of object references. As in Python, one `Task` object can sit at several positions. Completing one of those positions then shows at all of them. `MarkCompleted` states exactly this, and `MarkCompletedChanges` proves it.
- `MarkCompletedDistinct` covers the usual case, where every position holds its own object. Then completing position `i` changes only position `i`.
- The creation time is a constructor parameter and is not read from a clock. Timestamps are integers, and a due date is an `Option<int>`.
- A priority is any string, as in the code; the form offers only "Low", "Normal" and "High" (main.py:56). It is compared as Python compares `str`, so the order is "High" < "Low" < "Normal" (alphabetical), not by severity.
- Python computes every sort key before it sorts. `SortTasks` therefore states its result in terms of the keys in the old state.

## Model

| member | source | states |
|---|---|---|
| `Todo.Task.constructor` | main.py:8-14 | A new task keeps the given title, description, priority (default "Low"), creation time and due date (default none). It is not completed. |
| `Todo.Task.CompleteTask` | main.py:16-17 | Afterwards the task is completed. Every other field is unchanged. |
| `Todo.Task.ToDict` | main.py:19-27 | The record carries each of the six fields of the task. |
| `Todo.TodoList.constructor` | main.py:173-174 | A new list is empty. |
| `Todo.TodoList.AddTask` | main.py:176-177 | The new list is the old list with the task appended at the end. No task object changes. |
| `Todo.TodoList.CompleteTask` | main.py:179-182 | The list keeps its order and length. Its records become `MarkCompleted` of the old records. Only the task object at `taskId` may change, and nothing changes when `taskId` is out of range. |
| `Todo.TodoList.DeleteTask` | main.py:184-186 | The new list is `RemoveAt(old list, taskId)`. An out-of-range `taskId` leaves it unchanged. |
| `Todo.TodoList.SortTasks` | main.py:188-194 | The result is a permutation of the old list. It is the stable sort by the key the option chooses, ordered by priority string, due date or creation time. Any other option leaves the list unchanged. |
| `Todo.MarkCompleted` | main.py:179-182 | Completing a position keeps the number of records. |
| `Todo.MarkCompletedChanges` | main.py:179-182 | In range, the target record and every position holding the same task object become completed and keep their other fields. Records of other task objects are unchanged. |
| `Todo.MarkCompletedDistinct` | main.py:179-182 | When every task object is held once, exactly position `i` changes. |
| `Todo.MarkCompletedOutOfRange` | main.py:180 | An out-of-range position changes no record. |
| `Todo.MarkCompletedIdempotent` | main.py:179-182 | Completing the same position twice gives the same records as completing it once. |
| `Todo.RemoveAt` | main.py:184-186 | In range, the length drops by exactly one. Out of range, the sequence is unchanged. |
| `Todo.RemoveAtElements` | main.py:186 | Elements before the deleted position stay where they are. Elements after it move down by one. |
| `Todo.RemoveAtPermutation` | main.py:186 | Deleting drops exactly the one element at the position and keeps all the others. |
| `Todo.RemoveAtUndoesAppend` | main.py:176-186 | Deleting the last position undoes an append. |
| `Todo.ByPriority` | main.py:190 | Each task is paired with its priority string, in list order. |
| `Todo.ByCreation` | main.py:194 | Each task is paired with its creation time, in list order. |
| `Todo.DueKey` | main.py:192 | A present due date is the key itself. A missing one becomes the placeholder 0, which is only used when there are fewer than two tasks and so nothing is compared. |
| `Todo.ByDueDate` | main.py:192 | Each task is paired with its due-date key, in list order. |
| `Todo.DueDatesComparable` | main.py:192 | Sorting by due date succeeds exactly when there are fewer than two tasks or every task has a due date. |
| `Todo.PrioritySortOrders` | main.py:189-190 | The priority sort is a permutation. Its priorities ascend in string order. Tasks with equal priority keep their relative order. |
| `Todo.DueDateSortOrders` | main.py:191-192 | When due dates are comparable, the due-date sort is a permutation. With two or more tasks, every due date is present and they ascend. Ties keep their order. |
| `Todo.CreationSortOrders` | main.py:193-194 | The creation-time sort is a permutation. Its creation times ascend, and ties keep their order. |
| `Todo.CreationSortKeepsInsertionOrder` | main.py:193-194 | Sorting tasks whose creation times already ascend returns them in insertion order. |
| `Todo.PrioritySortExample` | main.py:189-190 | Priorities "Normal", "High", "Low" are sorted to "High", "Low", "Normal". |
| `Ordering.StrLess` | main.py:190 | A string is less than every longer string it is a proper prefix of, and never less than itself or than any of its prefixes. |
| `Ordering.StrLessTransitive` | main.py:190 | String comparison is transitive. |
| `Ordering.StrLessTotal` | main.py:190 | Of two different strings, one is less than the other. |
| `Ordering.StrLessIsStrictTotalOrder` | main.py:190 | Comparing priority strings is a strict total order. |
| `Ordering.IntLess` | main.py:192-194 | Timestamps, modelled as integers, compare with `<`. |
| `Ordering.IntLessIsStrictTotalOrder` | main.py:192-194 | Comparing timestamps is a strict total order. |
| `Ordering.PriorityLabelsAlphabetical` | main.py:56 | The form's three labels order as "High" < "Low" < "Normal". |
| `Sorting.SortBy` | main.py:188-194 | The sorted sequence has as many pairs as the input. |
| `Sorting.SortByPermutes` | main.py:188-194 | Sorting yields a permutation of the (key, task) pairs. |
| `Sorting.SortByFacts` | main.py:188-194 | Under a strict total order, the sort is ordered by key, keeps every key's pairs in their order, permutes the values and holds only pairs of the input. |
| `Sorting.SortByPermutesValues` | main.py:188-194 | The sorted tasks are a permutation of the input tasks. |
| `Sorting.SortBySorted` | main.py:188-194 | Under a strict total order, the sorted pairs never place a larger key before a smaller one. |
| `Sorting.SortByStable` | main.py:188-194 | For every key, the pairs with that key keep their original relative order. |
| `Sorting.StableSortUnique` | main.py:188-194 | Two sequences that are both ordered by key and agree on every key's order are equal. |
| `Sorting.SortByCharacterised` | main.py:188-194 | Any sequence ordered by key that keeps every key's original order equals `SortBy`, which is therefore what `list.sort` returns. |
| `Sorting.SortByKeepsSorted` | main.py:188-194 | Sorting a sequence that is already ordered by key leaves it unchanged. |

## Left out

- `TodoListApp` and `main` (main.py:32-170, 209-215): the tkinter window, its widgets and message boxes. The form checks that title and description are present, and that check is also left out.
- `save_tasks` and `load_tasks` (main.py:196-207): they do file I/O and JSON encoding. No save/load round trip is stated, because the code has none. `load_tasks` passes the saved `created_at` and `completed` keys to `Task(...)`, which does not accept them, so a saved file with tasks cannot be loaded back.
- `datetime.now()` and `strptime` (main.py:12, 118): a clock and a date parser. The creation time is a parameter, and due dates are integers.
- `__str__` (main.py:29-30): display formatting only.
- The conversion of timestamps to text inside `to_dict` (main.py:24-25): it only feeds the JSON that `save_tasks` writes (main.py:197), which is left out. `ToDict` keeps the timestamps as integers. An absent due date stays absent, as `None` does there.
- Todo.TodoList.SortTasks: sorting by "Due Date" is only modelled when it succeeds. With two or more tasks and a missing due date, Python raises `TypeError` and may leave the list partly reordered. The model requires this case away (`DueDatesComparable`).
- Todo.TodoList.SortTasks: the sort is stated by its result. Timsort's own steps are not modelled.
- Todo.Task.CompleteTask: Python lets any field of a task be reassigned. This core only ever sets `completed`, so only that mutator is modelled.
