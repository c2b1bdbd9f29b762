/**
  The process-local task queue: one loop per tick over the task and item slices,
  with a limit on how many items it handles. An item is handled once, so a failed
  handler fails the item.
 */
module MemoryTaskQueue {
  import opened Basics
  import TaskQueue

  datatype Status = Queued | Succeeded | Failed

  datatype Item = Item(id: string, taskId: string, target: string, status: Status, attempts: nat, lastError: string)
  datatype Task = Task(id: string, kind: string, status: TaskQueue.TaskStatus, total: nat, success: nat, failed: nat)

  predicate Active(task: Task) {
    !TaskQueue.Terminal(task.status)
  }

  // ---------------------------------------------------------------- counting

  /** How many of the items have this status, for one task. */
  function Count(items: seq<Item>, t: string, status: Status): nat {
    if items == [] then 0
    else Count(items[..|items| - 1], t, status)
         + (if items[|items| - 1].taskId == t && items[|items| - 1].status == status then 1 else 0)
  }

  /** How many items are queued, over all tasks. */
  function QueuedCount(items: seq<Item>): nat {
    if items == [] then 0
    else QueuedCount(items[..|items| - 1]) + (if items[|items| - 1].status == Queued then 1 else 0)
  }

  function ActiveCount(tasks: seq<Task>): nat {
    if tasks == [] then 0
    else ActiveCount(tasks[..|tasks| - 1]) + (if Active(tasks[|tasks| - 1]) then 1 else 0)
  }

  /** A task's item total is the sum over the statuses. */
  lemma {:induction false} CountsPartition(items: seq<Item>, t: string)
    ensures Count(items, t, Queued) + Count(items, t, Succeeded) + Count(items, t, Failed) == Size(items, t)
  {
    if items != [] {
      CountsPartition(items[..|items| - 1], t);
    }
  }

  function Size(items: seq<Item>, t: string): nat {
    if items == [] then 0
    else Size(items[..|items| - 1], t) + (if items[|items| - 1].taskId == t then 1 else 0)
  }

  lemma {:induction false} CountUpdate(items: seq<Item>, k: nat, item: Item, t: string, status: Status)
    requires k < |items| && item.taskId == items[k].taskId
    ensures Count(items[k := item], t, status) ==
              Count(items, t, status)
              - (if items[k].taskId == t && items[k].status == status then 1 else 0)
              + (if items[k].taskId == t && item.status == status then 1 else 0)
    ensures Size(items[k := item], t) == Size(items, t)
  {
    var last := |items| - 1;
    if k == last {
      assert items[k := item][..last] == items[..last];
    } else {
      assert items[k := item][..last] == items[..last][k := item];
      CountUpdate(items[..last], k, item, t, status);
    }
  }

  lemma {:induction false} QueuedUpdate(items: seq<Item>, k: nat, item: Item)
    requires k < |items| && items[k].status == Queued && item.status != Queued
    ensures QueuedCount(items[k := item]) == QueuedCount(items) - 1
  {
    var last := |items| - 1;
    if k == last {
      assert items[k := item][..last] == items[..last];
    } else {
      assert items[k := item][..last] == items[..last][k := item];
      QueuedUpdate(items[..last], k, item);
    }
  }

  lemma {:induction false} NoneQueued(items: seq<Item>, t: string)
    ensures Count(items, t, Queued) == 0 <==>
            forall k :: 0 <= k < |items| && items[k].taskId == t ==> items[k].status != Queued
  {
    if items != [] {
      NoneQueued(items[..|items| - 1], t);
    }
  }

  lemma {:induction false} AllSettled(items: seq<Item>)
    requires forall k :: 0 <= k < |items| ==> items[k].status != Queued
    ensures QueuedCount(items) == 0
  {
    if items != [] {
      AllSettled(items[..|items| - 1]);
    }
  }

  lemma {:induction false} ActiveCountShrinks(before: seq<Task>, after: seq<Task>)
    requires |before| == |after|
    requires forall j :: 0 <= j < |before| ==> Active(after[j]) ==> Active(before[j])
    ensures ActiveCount(after) <= ActiveCount(before)
    ensures (forall j :: 0 <= j < |after| ==> !Active(after[j])) ==> ActiveCount(after) == 0
  {
    if before != [] {
      ActiveCountShrinks(before[..|before| - 1], after[..|after| - 1]);
    }
  }

  // ---------------------------------------------------------------- the invariant

  predicate UniqueIds(tasks: seq<Task>, items: seq<Item>) {
    && (forall i, j :: 0 <= i < j < |tasks| ==> tasks[i].id != tasks[j].id)
    && (forall i, j :: 0 <= i < j < |items| ==> items[i].id != items[j].id)
  }

  predicate CountsOk(task: Task, items: seq<Item>) {
    && task.success == Count(items, task.id, Succeeded)
    && task.failed == Count(items, task.id, Failed)
    && task.total == Size(items, task.id)
  }

  /** An untouched task is all queued, a running one has work left, a terminal one has none and a due verdict. */
  predicate StatusOk(task: Task, items: seq<Item>) {
    match task.status
    case TaskQueued => task.total == Count(items, task.id, Queued)
    case TaskRunning => 0 < Count(items, task.id, Queued)
    case _ => Count(items, task.id, Queued) == 0 && task.status == TaskQueue.Verdict(task.success, task.failed)
  }

  predicate AllCountsOk(tasks: seq<Task>, items: seq<Item>) {
    forall j :: 0 <= j < |tasks| ==> CountsOk(tasks[j], items)
  }

  /** What the handler of an item answers at its only attempt. */
  function Answer(oracle: TaskQueue.Oracle, kind: string, id: string): TaskQueue.Outcome {
    TaskQueue.Handle(TaskQueue.Config(oracle, 1), kind, id, 1)
  }

  function Handled(item: Item, answer: TaskQueue.Outcome): Item {
    match answer
    case Done => item.(status := Succeeded, attempts := item.attempts + 1)
    case Refused(message) => item.(status := Failed, attempts := item.attempts + 1, lastError := message)
  }

  /** The item belongs to a task, and has been handled at most once, with that task's answer. */
  predicate ItemOk(item: Item, tasks: seq<Task>, oracle: TaskQueue.Oracle) {
    exists j :: 0 <= j < |tasks| && OwnedBy(item, tasks[j], oracle)
  }

  predicate OwnedBy(item: Item, task: Task, oracle: TaskQueue.Oracle) {
    && item.taskId == task.id
    && (item.status == Queued ==> item.attempts == 0)
    && (item.status != Queued ==>
          && item.attempts == 1
          && item.status == if Answer(oracle, task.kind, item.id).Done? then Succeeded else Failed)
  }

  ghost predicate Inv(tasks: seq<Task>, items: seq<Item>, oracle: TaskQueue.Oracle) {
    && UniqueIds(tasks, items)
    && AllCountsOk(tasks, items)
    && (forall j :: 0 <= j < |tasks| ==> StatusOk(tasks[j], items))
    && (forall k :: 0 <= k < |items| ==> ItemOk(items[k], tasks, oracle))
  }

  function Tallied(task: Task, status: Status): Task {
    match status
    case Queued => task
    case Succeeded => task.(success := task.success + 1)
    case Failed => task.(failed := task.failed + 1)
  }

  /** Handling one queued item moves one unit between the counters of its task and touches no other. */
  lemma HandlingKeepsCounts(tasks: seq<Task>, items: seq<Item>, j: nat, k: nat, item: Item)
    requires j < |tasks| && k < |items| && UniqueIds(tasks, items) && AllCountsOk(tasks, items)
    requires items[k].taskId == item.taskId == tasks[j].id && items[k].status == Queued != item.status
    ensures AllCountsOk(tasks[j := Tallied(tasks[j], item.status)], items[k := item])
    ensures forall i :: 0 <= i < |tasks| && i != j && StatusOk(tasks[i], items) ==> StatusOk(tasks[i], items[k := item])
    ensures QueuedCount(items[k := item]) == QueuedCount(items) - 1
  {
    QueuedUpdate(items, k, item);
    forall i | 0 <= i < |tasks|
      ensures CountsOk(tasks[j := Tallied(tasks[j], item.status)][i], items[k := item])
      ensures i != j && StatusOk(tasks[i], items) ==> StatusOk(tasks[i], items[k := item])
    {
      CountUpdate(items, k, item, tasks[i].id, Queued);
      CountUpdate(items, k, item, tasks[i].id, Succeeded);
      CountUpdate(items, k, item, tasks[i].id, Failed);
      assert i != j ==> tasks[i].id != tasks[j].id;
    }
  }

  /** A counted task all of whose items are settled takes its verdict; one with work left keeps running. */
  lemma FinishingSettles(task: Task, items: seq<Item>)
    requires CountsOk(task, items)
    ensures task.success + task.failed < task.total <==> 0 < Count(items, task.id, Queued)
  {
    CountsPartition(items, task.id);
  }

  /** A task with nothing left to do has completed, failed or partly failed by the items it has. */
  lemma DrainedStatusByCounts(tasks: seq<Task>, items: seq<Item>, oracle: TaskQueue.Oracle, j: nat)
    requires Inv(tasks, items, oracle) && j < |tasks|
    requires 0 < tasks[j].total && Count(items, tasks[j].id, Queued) == 0
    ensures var status := tasks[j].status;
            var alive, dead := Count(items, tasks[j].id, Succeeded), Count(items, tasks[j].id, Failed);
            && (status == TaskQueue.Completed <==> dead == 0)
            && (status == TaskQueue.Failed <==> dead > 0 && alive == 0)
            && (status == TaskQueue.PartialFailed <==> dead > 0 && alive > 0)
  {
    assert StatusOk(tasks[j], items) && CountsOk(tasks[j], items);
    CountsPartition(items, tasks[j].id);
  }

  /** What handling leaves in an item, field by field. */
  lemma HandledFields(item: Item, kind: string, oracle: TaskQueue.Oracle)
    ensures var after := Handled(item, Answer(oracle, kind, item.id));
            var supported := kind == "batch_customer_tags";
            var done := supported && oracle(item.id, 1).Done?;
            && after.id == item.id && after.taskId == item.taskId && after.target == item.target
            && after.attempts == item.attempts + 1
            && after.status == (if done then Succeeded else Failed)
            && after.lastError == (if done then item.lastError
                                   else if supported then oracle(item.id, 1).message
                                   else "unsupported task type")
  {
  }

  // ---------------------------------------------------------------- the tick

  /** Tasks only change their progress. */
  predicate SameTasks(before: seq<Task>, after: seq<Task>) {
    && |before| == |after|
    && forall j :: 0 <= j < |before| ==>
         && after[j].id == before[j].id && after[j].kind == before[j].kind && after[j].total == before[j].total
         && (Active(after[j]) ==> Active(before[j]))
  }

  /** An item stays, or it was queued and its task's handler has now run. */
  predicate Advanced(before: Item, after: Item, tasks: seq<Task>, oracle: TaskQueue.Oracle) {
    || after == before
    || (before.status == Queued
        && exists j :: 0 <= j < |tasks| && tasks[j].id == before.taskId
             && after == Handled(before, Answer(oracle, tasks[j].kind, before.id)))
  }

  /** Items at the same place, each of them advanced. */
  predicate AllAdvanced(before: seq<Item>, after: seq<Item>, tasks: seq<Task>, oracle: TaskQueue.Oracle) {
    |before| == |after| && forall k :: 0 <= k < |before| ==> Advanced(before[k], after[k], tasks, oracle)
  }

  /** The invariant, but for the status of task j, whose items are being handled. */
  ghost predicate OkBut(tasks: seq<Task>, items: seq<Item>, j: nat, oracle: TaskQueue.Oracle) {
    && UniqueIds(tasks, items)
    && AllCountsOk(tasks, items)
    && (forall i :: 0 <= i < |tasks| && i != j ==> StatusOk(tasks[i], items))
    && (forall k :: 0 <= k < |items| ==> ItemOk(items[k], tasks, oracle))
  }

  /** How far task j's items have been handled, before item k. */
  ghost predicate Swept(tasks0: seq<Task>, items0: seq<Item>, items: seq<Item>, j: nat, k: nat,
                        oracle: TaskQueue.Oracle)
    requires j < |tasks0|
  {
    && k <= |items0| == |items|
    && AllAdvanced(items0, items, tasks0, oracle)
    && (forall i :: 0 <= i < |items| && (i >= k || items0[i].taskId != tasks0[j].id) ==> items[i] == items0[i])
    && (forall i :: 0 <= i < k && items[i].taskId == tasks0[j].id ==> items[i].status != Queued)
  }

  /** Only task j moves, and it is running. */
  ghost predicate OnlyRunning(tasks0: seq<Task>, tasks: seq<Task>, j: nat)
    requires j < |tasks0|
  {
    && |tasks0| == |tasks|
    && tasks[j] == tasks0[j].(status := TaskQueue.TaskRunning, success := tasks[j].success, failed := tasks[j].failed)
    && forall i :: 0 <= i < |tasks| && i != j ==> tasks[i] == tasks0[i]
  }

  /** Where one task's share of the tick stands before item k, having handled `done` items. */
  ghost predicate Working(tasks0: seq<Task>, items0: seq<Item>, tasks: seq<Task>, items: seq<Item>,
                          j: nat, k: nat, done: nat, oracle: TaskQueue.Oracle)
  {
    && j < |tasks0|
    && OnlyRunning(tasks0, tasks, j)
    && OkBut(tasks, items, j, oracle)
    && Swept(tasks0, items0, items, j, k, oracle)
    && QueuedCount(items) + done == QueuedCount(items0)
  }

  lemma ItemsOkUnderTaskProgress(tasks: seq<Task>, tasks': seq<Task>, items: seq<Item>, oracle: TaskQueue.Oracle)
    requires |tasks| == |tasks'|
    requires forall j :: 0 <= j < |tasks| ==> tasks'[j].id == tasks[j].id && tasks'[j].kind == tasks[j].kind
    requires forall k :: 0 <= k < |items| ==> ItemOk(items[k], tasks, oracle)
    ensures forall k :: 0 <= k < |items| ==> ItemOk(items[k], tasks', oracle)
  {
    forall k | 0 <= k < |items| ensures ItemOk(items[k], tasks', oracle) {
      var j :| 0 <= j < |tasks| && OwnedBy(items[k], tasks[j], oracle);
      assert OwnedBy(items[k], tasks'[j], oracle);
    }
  }

  lemma WorkingStarts(tasks: seq<Task>, items: seq<Item>, j: nat, oracle: TaskQueue.Oracle)
    requires Inv(tasks, items, oracle) && j < |tasks|
    ensures Working(tasks, items, tasks[j := tasks[j].(status := TaskQueue.TaskRunning)], items, j, 0, 0, oracle)
  {
    var tasks' := tasks[j := tasks[j].(status := TaskQueue.TaskRunning)];
    ItemsOkUnderTaskProgress(tasks, tasks', items, oracle);
  }

  lemma HandlingKeepsOk(tasks: seq<Task>, items: seq<Item>, j: nat, k: nat, oracle: TaskQueue.Oracle)
    requires j < |tasks| && k < |items| && OkBut(tasks, items, j, oracle)
    requires items[k].taskId == tasks[j].id && items[k].status == Queued && items[k].attempts == 0
    ensures var item := Handled(items[k], Answer(oracle, tasks[j].kind, items[k].id));
            && OkBut(tasks[j := Tallied(tasks[j], item.status)], items[k := item], j, oracle)
            && QueuedCount(items[k := item]) == QueuedCount(items) - 1
  {
    var item := Handled(items[k], Answer(oracle, tasks[j].kind, items[k].id));
    var tasks' := tasks[j := Tallied(tasks[j], item.status)];
    HandlingKeepsCounts(tasks, items, j, k, item);
    ItemsOkUnderTaskProgress(tasks, tasks', items, oracle);
    assert OwnedBy(item, tasks'[j], oracle);
    assert ItemOk(item, tasks', oracle);
  }

  lemma QueuedItemsAreUnattempted(tasks: seq<Task>, items: seq<Item>, k: nat, oracle: TaskQueue.Oracle)
    requires k < |items| && ItemOk(items[k], tasks, oracle) && items[k].status == Queued
    ensures items[k].attempts == 0
  {
  }

  lemma SweepAdvances(tasks0: seq<Task>, items0: seq<Item>, items: seq<Item>, j: nat, k: nat, oracle: TaskQueue.Oracle)
    requires j < |tasks0| && Swept(tasks0, items0, items, j, k, oracle) && k < |items|
    ensures items[k].taskId != tasks0[j].id || items[k].status != Queued ==>
              Swept(tasks0, items0, items, j, k + 1, oracle)
    ensures items[k].taskId == tasks0[j].id && items[k].status == Queued ==>
              Swept(tasks0, items0, items[k := Handled(items[k], Answer(oracle, tasks0[j].kind, items[k].id))],
                    j, k + 1, oracle)
  {
    if items[k].taskId == tasks0[j].id && items[k].status == Queued {
      var item := Handled(items[k], Answer(oracle, tasks0[j].kind, items[k].id));
      assert tasks0[j].id == items0[k].taskId && Advanced(items0[k], item, tasks0, oracle);
    }
  }

  lemma WorkingHandles(tasks0: seq<Task>, items0: seq<Item>, tasks: seq<Task>, items: seq<Item>,
                       j: nat, k: nat, done: nat, oracle: TaskQueue.Oracle)
    requires Working(tasks0, items0, tasks, items, j, k, done, oracle)
    requires k < |items| && items[k].taskId == tasks[j].id && items[k].status == Queued
    ensures items[k].attempts == 0
    ensures var item := Handled(items[k], Answer(oracle, tasks[j].kind, items[k].id));
            Working(tasks0, items0, tasks[j := Tallied(tasks[j], item.status)], items[k := item],
                    j, k + 1, done + 1, oracle)
  {
    QueuedItemsAreUnattempted(tasks, items, k, oracle);
    HandlingKeepsOk(tasks, items, j, k, oracle);
    SweepAdvances(tasks0, items0, items, j, k, oracle);
  }

  lemma WorkingSkips(tasks0: seq<Task>, items0: seq<Item>, tasks: seq<Task>, items: seq<Item>,
                     j: nat, k: nat, done: nat, oracle: TaskQueue.Oracle)
    requires Working(tasks0, items0, tasks, items, j, k, done, oracle)
    requires k < |items| && (items[k].taskId != tasks[j].id || items[k].status != Queued)
    ensures Working(tasks0, items0, tasks, items, j, k + 1, done, oracle)
  {
    SweepAdvances(tasks0, items0, items, j, k, oracle);
  }

  lemma WorkingFinishes(tasks0: seq<Task>, items0: seq<Item>, tasks: seq<Task>, items: seq<Item>,
                        j: nat, k: nat, done: nat, oracle: TaskQueue.Oracle)
    requires Working(tasks0, items0, tasks, items, j, k, done, oracle)
    ensures Inv(Finished(tasks, j), items, oracle)
    ensures k == |items| ==> !Active(Finished(tasks, j)[j])
  {
    var tasks' := Finished(tasks, j);
    FinishingSettles(tasks[j], items);
    NoneQueued(items, tasks[j].id);
    ItemsOkUnderTaskProgress(tasks, tasks', items, oracle);
    assert CountsOk(tasks[j], items);
  }

  /** finishTaskIfDone as a function of the task slice. */
  function Finished(tasks: seq<Task>, j: nat): seq<Task>
    requires j < |tasks|
  {
    var task := tasks[j];
    if Active(task) && task.success + task.failed >= task.total
    then tasks[j := task.(status := TaskQueue.Verdict(task.success, task.failed))]
    else tasks
  }

  /** Nothing is handled while something earlier, by task and then by item position, still waits. */
  ghost predicate FirstComeFirstServed(tasks: seq<Task>, before: seq<Item>, after: seq<Item>)
    requires |before| == |after|
  {
    forall j1, k1, j2, k2 ::
      && 0 <= j1 < |tasks| && 0 <= k1 < |after| && after[k1].taskId == tasks[j1].id && after[k1].status == Queued
      && 0 <= j2 < |tasks| && 0 <= k2 < |after| && after[k2].taskId == tasks[j2].id && after[k2] != before[k2]
      ==> j2 < j1 || (j2 == j1 && k2 < k1)
  }

  /** Where the tick stands before task j: earlier tasks are finished, later ones and their items untouched. */
  ghost predicate Ticking(tasks0: seq<Task>, items0: seq<Item>, tasks: seq<Task>, items: seq<Item>,
                          j: nat, done: nat, oracle: TaskQueue.Oracle)
  {
    && Inv(tasks, items, oracle)
    && SameTasks(tasks0, tasks) && j <= |tasks|
    && AllAdvanced(items0, items, tasks0, oracle)
    && (forall i :: 0 <= i < j ==> !Active(tasks[i]))
    && (forall i :: j <= i < |tasks| ==> tasks[i] == tasks0[i])
    && (forall k :: 0 <= k < |items| && items[k] != items0[k] ==>
          exists i :: 0 <= i < j && tasks[i].id == items[k].taskId)
    && QueuedCount(items) + done == QueuedCount(items0)
  }

  /** What holds when a tick ends, wherever it stopped. */
  ghost predicate Ticked(tasks0: seq<Task>, items0: seq<Item>, tasks: seq<Task>, items: seq<Item>,
                         done: nat, oracle: TaskQueue.Oracle)
  {
    && Inv(tasks, items, oracle)
    && SameTasks(tasks0, tasks)
    && AllAdvanced(items0, items, tasks0, oracle)
    && FirstComeFirstServed(tasks, items0, items)
    && QueuedCount(items) + done == QueuedCount(items0)
  }

  lemma FinishedTasksHaveNothingQueued(tasks: seq<Task>, items: seq<Item>, oracle: TaskQueue.Oracle, j: nat, k: nat)
    requires Inv(tasks, items, oracle) && j < |tasks| && k < |items|
    requires items[k].taskId == tasks[j].id && !Active(tasks[j])
    ensures items[k].status != Queued
  {
    NoneQueued(items, tasks[j].id);
    assert StatusOk(tasks[j], items);
  }

  lemma AdvancingComposes(items0: seq<Item>, items: seq<Item>, items': seq<Item>, tasks0: seq<Task>, tasks: seq<Task>,
                          oracle: TaskQueue.Oracle)
    requires AllAdvanced(items0, items, tasks0, oracle) && AllAdvanced(items, items', tasks, oracle)
    requires SameTasks(tasks0, tasks)
    ensures AllAdvanced(items0, items', tasks0, oracle)
  {
    forall k | 0 <= k < |items0| ensures Advanced(items0[k], items'[k], tasks0, oracle) {
      assert Advanced(items0[k], items[k], tasks0, oracle) && Advanced(items[k], items'[k], tasks, oracle);
      if items'[k] != items[k] {
        assert items[k] == items0[k];
        var j :| 0 <= j < |tasks| && tasks[j].id == items[k].taskId
                 && items'[k] == Handled(items[k], Answer(oracle, tasks[j].kind, items[k].id));
        assert tasks0[j].id == items0[k].taskId;
      }
    }
  }

  lemma TickingEnds(tasks0: seq<Task>, items0: seq<Item>, tasks: seq<Task>, items: seq<Item>,
                    j: nat, done: nat, oracle: TaskQueue.Oracle)
    requires Ticking(tasks0, items0, tasks, items, j, done, oracle)
    ensures Ticked(tasks0, items0, tasks, items, done, oracle)
    ensures j == |tasks| ==> QueuedCount(items) == 0
  {
    forall i, k | 0 <= i < j && 0 <= k < |items| && items[k].taskId == tasks[i].id
      ensures items[k].status != Queued
    {
      FinishedTasksHaveNothingQueued(tasks, items, oracle, i, k);
    }
    if j == |tasks| {
      forall k | 0 <= k < |items| ensures items[k].status != Queued {
        assert ItemOk(items[k], tasks, oracle);
      }
      AllSettled(items);
    }
  }

  /** The items touched so far belong to the tasks visited so far. */
  lemma TouchedUpTo(items0: seq<Item>, items: seq<Item>, items': seq<Item>, tasks: seq<Task>, tasks': seq<Task>,
                    j: nat, k: nat, oracle: TaskQueue.Oracle)
    requires j < |tasks| == |tasks'| && |items0| == |items|
    requires forall i :: 0 <= i < |tasks| ==> tasks'[i].id == tasks[i].id
    requires Swept(tasks, items, items', j, k, oracle)
    requires forall x :: 0 <= x < |items| && items[x] != items0[x] ==>
               exists i :: 0 <= i < j && tasks[i].id == items[x].taskId
    ensures forall x :: 0 <= x < |items'| && items'[x] != items0[x] ==>
              exists i :: 0 <= i < j + 1 && tasks'[i].id == items'[x].taskId
  {
    forall x | 0 <= x < |items'| && items'[x] != items0[x]
      ensures exists i :: 0 <= i < j + 1 && tasks'[i].id == items'[x].taskId
    {
      if items'[x] != items[x] {
        assert Advanced(items[x], items'[x], tasks, oracle);
        assert tasks'[j].id == items'[x].taskId;
      } else {
        var i :| 0 <= i < j && tasks[i].id == items[x].taskId;
        assert tasks'[i].id == items'[x].taskId;
      }
    }
  }

  lemma FinishedTouchesOne(tasks: seq<Task>, working: seq<Task>, j: nat)
    requires j < |tasks| && OnlyRunning(tasks, working, j) && Active(tasks[j])
    ensures SameTasks(tasks, Finished(working, j))
    ensures forall i :: 0 <= i < |tasks| && i != j ==> Finished(working, j)[i] == tasks[i]
  {
  }

  lemma SameTasksComposes(a: seq<Task>, b: seq<Task>, c: seq<Task>)
    requires SameTasks(a, b) && SameTasks(b, c)
    ensures SameTasks(a, c)
  {
  }

  /** After task j's share, the tick has either finished the task or stopped inside it. */
  lemma TickingPastTask(tasks0: seq<Task>, items0: seq<Item>, tasks: seq<Task>, items: seq<Item>, j: nat, done: nat,
                        working: seq<Task>, items': seq<Item>, k: nat, more: nat, oracle: TaskQueue.Oracle)
    requires Ticking(tasks0, items0, tasks, items, j, done, oracle) && j < |tasks| && Active(tasks[j])
    requires Working(tasks, items, working, items', j, k, more, oracle)
    ensures k == |items'| ==> Ticking(tasks0, items0, Finished(working, j), items', j + 1, done + more, oracle)
    ensures Ticked(tasks0, items0, Finished(working, j), items', done + more, oracle)
  {
    var tasks' := Finished(working, j);
    WorkingFinishes(tasks, items, working, items', j, k, more, oracle);
    AdvancingComposes(items0, items, items', tasks0, tasks, oracle);
    FinishedTouchesOne(tasks, working, j);
    SameTasksComposes(tasks0, tasks, tasks');
    TouchedUpTo(items0, items, items', tasks, tasks', j, k, oracle);
    CutServesInOrder(items0, items, tasks, items', tasks', j, k, oracle);
  }

  /** Stopping inside task j, before item k, has jumped no queue. */
  lemma CutServesInOrder(items0: seq<Item>, items: seq<Item>, tasks: seq<Task>,
                         items': seq<Item>, tasks': seq<Task>, j: nat, k: nat, oracle: TaskQueue.Oracle)
    requires Inv(tasks', items', oracle) && |items0| == |items| == |items'| && j < |tasks| == |tasks'|
    requires forall i :: 0 <= i < |tasks| ==> tasks'[i].id == tasks[i].id
    requires forall i :: 0 <= i < j ==> !Active(tasks'[i])
    requires Swept(tasks, items, items', j, k, oracle)
    requires forall x :: 0 <= x < |items'| && items[x] != items0[x] ==>
               exists i :: 0 <= i < j && tasks[i].id == items[x].taskId
    ensures FirstComeFirstServed(tasks', items0, items')
  {
    forall j1, k1, j2, k2 |
      && 0 <= j1 < |tasks'| && 0 <= k1 < |items'| && items'[k1].taskId == tasks'[j1].id && items'[k1].status == Queued
      && 0 <= j2 < |tasks'| && 0 <= k2 < |items'| && items'[k2].taskId == tasks'[j2].id && items'[k2] != items0[k2]
      ensures j2 < j1 || (j2 == j1 && k2 < k1)
    {
      if j1 < j {
        FinishedTasksHaveNothingQueued(tasks', items', oracle, j1, k1);
      }
      assert Advanced(items[k2], items'[k2], tasks, oracle);
      if items'[k2] != items[k2] {
        assert k2 < k && items[k2].taskId == tasks[j].id;
        assert j2 == j;
      } else {
        var i :| 0 <= i < j && tasks[i].id == items[k2].taskId;
        assert i == j2;
      }
    }
  }

  /** A tick that handled something, or finished every task, is closer to idle. */
  lemma TickProgress(tasks0: seq<Task>, items0: seq<Item>, tasks: seq<Task>, items: seq<Item>,
                     done: nat, oracle: TaskQueue.Oracle)
    requires Ticked(tasks0, items0, tasks, items, done, oracle)
    ensures done > 0 || (forall j :: 0 <= j < |tasks| ==> !Active(tasks[j])) ==>
              ActiveCount(tasks0) > 0 ==>
                QueuedCount(items) + ActiveCount(tasks) < QueuedCount(items0) + ActiveCount(tasks0)
  {
    ActiveCountShrinks(tasks0, tasks);
  }

  // ---------------------------------------------------------------- enqueueing

  function NewItem(t: string, target: string, id: string): Item {
    Item(id, t, target, Queued, 0, "")
  }

  function NewItems(t: string, targets: seq<string>, ids: seq<string>): seq<Item>
    requires |targets| == |ids|
  {
    seq(|ids|, k requires 0 <= k < |ids| => NewItem(t, targets[k], ids[k]))
  }

  function NewTask(t: string, total: nat): Task {
    Task(t, TaskQueue.BATCH_CUSTOMER_TAGS, TaskQueue.TaskQueued, total, 0, 0)
  }

  predicate FreshIds(tasks: seq<Task>, items: seq<Item>, t: string, ids: seq<string>) {
    && (forall j :: 0 <= j < |tasks| ==> tasks[j].id != t)
    && (forall k :: 0 <= k < |items| ==> items[k].taskId != t && items[k].id !in ids)
    && (forall i, k :: 0 <= i < k < |ids| ==> ids[i] != ids[k])
  }

  /** Appending n queued items of task t counts n more queued for t, and nothing else. */
  lemma {:induction false} CountsAfterAppend(items: seq<Item>, more: seq<Item>, t: string, u: string)
    requires forall k :: 0 <= k < |more| ==> more[k].taskId == t && more[k].status == Queued
    ensures Count(items + more, u, Queued) == Count(items, u, Queued) + (if u == t then |more| else 0)
    ensures Count(items + more, u, Succeeded) == Count(items, u, Succeeded)
    ensures Count(items + more, u, Failed) == Count(items, u, Failed)
    ensures Size(items + more, u) == Size(items, u) + (if u == t then |more| else 0)
  {
    if more == [] {
      assert items + more == items;
    } else {
      var last := |more| - 1;
      CountsAfterAppend(items, more[..last], t, u);
      assert (items + more)[..|items + more| - 1] == items + more[..last];
    }
  }

  lemma {:induction false} StrangerCountsNothing(items: seq<Item>, t: string)
    requires forall k :: 0 <= k < |items| ==> items[k].taskId != t
    ensures Size(items, t) == 0 == Count(items, t, Queued)
    ensures Count(items, t, Succeeded) == 0 == Count(items, t, Failed)
  {
    if items != [] {
      StrangerCountsNothing(items[..|items| - 1], t);
    }
  }

  lemma EnqueueKeepsCounts(tasks: seq<Task>, items: seq<Item>, t: string, targets: seq<string>, ids: seq<string>)
    requires |targets| == |ids| && FreshIds(tasks, items, t, ids) && AllCountsOk(tasks, items)
    requires forall j :: 0 <= j < |tasks| ==> StatusOk(tasks[j], items)
    ensures var tasks', items' := [NewTask(t, |targets|)] + tasks, items + NewItems(t, targets, ids);
            AllCountsOk(tasks', items') && forall j :: 0 <= j < |tasks'| ==> StatusOk(tasks'[j], items')
  {
    var more := NewItems(t, targets, ids);
    var tasks', items' := [NewTask(t, |targets|)] + tasks, items + more;
    forall j | 0 <= j < |tasks'| ensures CountsOk(tasks'[j], items') && StatusOk(tasks'[j], items') {
      CountsAfterAppend(items, more, t, tasks'[j].id);
      if j == 0 {
        StrangerCountsNothing(items, t);
      } else {
        assert tasks'[j] == tasks[j - 1];
      }
    }
  }

  lemma EnqueueKeepsInvariant(tasks: seq<Task>, items: seq<Item>, t: string, targets: seq<string>, ids: seq<string>,
                              oracle: TaskQueue.Oracle)
    requires Inv(tasks, items, oracle)
    requires |targets| == |ids| && FreshIds(tasks, items, t, ids)
    ensures Inv([NewTask(t, |targets|)] + tasks, items + NewItems(t, targets, ids), oracle)
  {
    EnqueueKeepsCounts(tasks, items, t, targets, ids);
    EnqueueKeepsItemsOk(tasks, items, t, targets, ids, oracle);
  }

  lemma EnqueueKeepsItemsOk(tasks: seq<Task>, items: seq<Item>, t: string, targets: seq<string>, ids: seq<string>,
                            oracle: TaskQueue.Oracle)
    requires |targets| == |ids| && forall k :: 0 <= k < |items| ==> ItemOk(items[k], tasks, oracle)
    ensures var tasks', items' := [NewTask(t, |targets|)] + tasks, items + NewItems(t, targets, ids);
            forall k :: 0 <= k < |items'| ==> ItemOk(items'[k], tasks', oracle)
  {
    var tasks', items' := [NewTask(t, |targets|)] + tasks, items + NewItems(t, targets, ids);
    forall k | 0 <= k < |items'| ensures ItemOk(items'[k], tasks', oracle) {
      if k < |items| {
        var j :| 0 <= j < |tasks| && OwnedBy(items[k], tasks[j], oracle);
        assert OwnedBy(items'[k], tasks'[j + 1], oracle);
      } else {
        assert OwnedBy(items'[k], tasks'[0], oracle);
      }
    }
  }

  class MemoryQueue {
    var tasks: seq<Task>
    var items: seq<Item>

    constructor ()
      ensures tasks == [] && items == []
    {
      tasks, items := [], [];
    }

    /** A new task goes to the front of the task slice, its items to the back of the item slice. */
    method EnqueueBatchTagTask(customerIds: seq<string>, t: string, ids: seq<string>, ghost oracle: TaskQueue.Oracle)
      requires |ids| == |customerIds| && FreshIds(tasks, items, t, ids)
      requires Inv(tasks, items, oracle)
      modifies this
      ensures tasks == [NewTask(t, |customerIds|)] + old(tasks)
      ensures items == old(items) + NewItems(t, customerIds, ids)
      ensures tasks[0] == Task(t, "batch_customer_tags", TaskQueue.TaskQueued, |customerIds|, 0, 0)
      ensures forall k :: 0 <= k < |ids| ==>
                items[|old(items)| + k] == Item(ids[k], t, customerIds[k], Queued, 0, "")
      ensures Inv(tasks, items, oracle)
    {
      EnqueueKeepsInvariant(tasks, items, t, customerIds, ids, oracle);
      tasks := [NewTask(t, |customerIds|)] + tasks;
      var k := 0;
      while k < |customerIds|
        invariant 0 <= k <= |customerIds|
        invariant items == old(items) + NewItems(t, customerIds, ids)[..k]
        modifies this`items
      {
        items := items + [NewItem(t, customerIds[k], ids[k])];
        k := k + 1;
      }
    }

    /** Handle one item and count it to its task. */
    method ProcessTaskItem(j: nat, k: nat, oracle: TaskQueue.Oracle)
      requires j < |tasks| && k < |items| && items[k].attempts == 0
      modifies this
      ensures items == old(items)[k := Handled(old(items)[k], Answer(oracle, old(tasks)[j].kind, old(items)[k].id))]
      ensures tasks == old(tasks)[j := Tallied(old(tasks)[j], items[k].status)]
    {
      var item := items[k].(attempts := items[k].attempts + 1);
      var task := tasks[j];
      match Answer(oracle, task.kind, item.id) {
        case Refused(message) =>
          items := items[k := item.(status := Failed, lastError := message)];
          tasks := tasks[j := task.(failed := task.failed + 1)];
        case Done =>
          items := items[k := item.(status := Succeeded)];
          tasks := tasks[j := task.(success := task.success + 1)];
      }
    }

    method FinishTaskIfDone(j: nat)
      requires j < |tasks|
      modifies this`tasks
      ensures tasks == Finished(old(tasks), j)
      ensures var task := old(tasks)[j];
              var settles := Active(task) && task.success + task.failed >= task.total;
              && (!settles ==> tasks == old(tasks))
              && (settles && task.failed == 0 ==> tasks == old(tasks)[j := task.(status := TaskQueue.Completed)])
              && (settles && task.failed > 0 && task.success == 0 ==>
                    tasks == old(tasks)[j := task.(status := TaskQueue.Failed)])
              && (settles && task.failed > 0 && task.success > 0 ==>
                    tasks == old(tasks)[j := task.(status := TaskQueue.PartialFailed)])
    {
      var task := tasks[j];
      if task.success + task.failed < task.total || !Active(task) {
        return;
      }
      if task.failed == 0 {
        tasks := tasks[j := task.(status := TaskQueue.Completed)];
      } else if task.success == 0 {
        tasks := tasks[j := task.(status := TaskQueue.Failed)];
      } else {
        tasks := tasks[j := task.(status := TaskQueue.PartialFailed)];
      }
    }

    /** The body of the item loop: handle item k if it is task j's and queued. */
    method HandleOrSkip(ghost tasks0: seq<Task>, ghost items0: seq<Item>, j: nat, k: nat, done: nat,
                        oracle: TaskQueue.Oracle)
      returns (handled: bool)
      requires j < |tasks| && k < |items| && Working(tasks0, items0, tasks, items, j, k, done, oracle)
      modifies this
      ensures handled <==> old(items)[k].taskId == old(tasks)[j].id && old(items)[k].status == Queued
      ensures |tasks| == |old(tasks)| && |items| == |old(items)|
      ensures Working(tasks0, items0, tasks, items, j, k + 1, if handled then done + 1 else done, oracle)
    {
      handled := items[k].taskId == tasks[j].id && items[k].status == Queued;
      if handled {
        WorkingHandles(tasks0, items0, tasks, items, j, k, done, oracle);
        ProcessTaskItem(j, k, oracle);
      } else {
        WorkingSkips(tasks0, items0, tasks, items, j, k, done, oracle);
      }
    }

    /** One task's share of a tick: its queued items in order, until the items or the room run out. */
    method ProcessTask(j: nat, room: nat, oracle: TaskQueue.Oracle)
      returns (done: nat, k: nat, ghost working: seq<Task>)
      requires Inv(tasks, items, oracle) && j < |tasks| && Active(tasks[j])
      modifies this
      ensures done <= room && (k < |items| ==> done == room)
      ensures Working(old(tasks), old(items), working, items, j, k, done, oracle)
      ensures |working| == |old(tasks)| && tasks == Finished(working, j)
    {
      tasks := tasks[j := tasks[j].(status := TaskQueue.TaskRunning)];
      WorkingStarts(old(tasks), old(items), j, oracle);
      done, k := 0, 0;
      while k < |items|
        invariant |tasks| == |old(tasks)| && Working(old(tasks), old(items), tasks, items, j, k, done, oracle)
        invariant done <= room
        decreases |items| - k
      {
        if done >= room {
          break;
        }
        var handled := HandleOrSkip(old(tasks), old(items), j, k, done, oracle);
        done := if handled then done + 1 else done;
        k := k + 1;
      }
      working := tasks;
      FinishTaskIfDone(j);
    }

    /** The body of the task loop: pass over a finished task, or work on an active one. */
    method WorkOrPass(ghost tasks0: seq<Task>, ghost items0: seq<Item>, j: nat, ghost done: nat, room: nat,
                      oracle: TaskQueue.Oracle)
      returns (more: nat, stopped: bool)
      requires j < |tasks| && Ticking(tasks0, items0, tasks, items, j, done, oracle)
      modifies this
      ensures more <= room && |tasks| == |old(tasks)|
      ensures !stopped ==> Ticking(tasks0, items0, tasks, items, j + 1, done + more, oracle)
      ensures stopped ==> more == room && Ticked(tasks0, items0, tasks, items, done + more, oracle)
    {
      if !Active(tasks[j]) {
        return 0, false;
      }
      ghost var tasks1, items1 := tasks, items;
      var k;
      ghost var working;
      more, k, working := ProcessTask(j, room, oracle);
      TickingPastTask(tasks0, items0, tasks1, items1, j, done, working, items, k, more, oracle);
      stopped := k < |items|;
    }

    /** The task loop, for a tick with room for `room` items. */
    method TaskLoop(room: nat, oracle: TaskQueue.Oracle) returns (processed: nat, j: nat, stopped: bool)
      requires Inv(tasks, items, oracle)
      modifies this
      ensures processed <= room
      ensures stopped ==> processed == room && Ticked(old(tasks), old(items), tasks, items, processed, oracle)
      ensures !stopped ==>
                && (processed == room || j == |tasks|)
                && Ticking(old(tasks), old(items), tasks, items, j, processed, oracle)
    {
      processed, j := 0, 0;
      while j < |tasks|
        invariant Ticking(old(tasks), old(items), tasks, items, j, processed, oracle)
        invariant processed <= room
        decreases |tasks| - j
      {
        if processed >= room {
          break;
        }
        var more;
        more, stopped := WorkOrPass(old(tasks), old(items), j, processed, room - processed, oracle);
        processed := processed + more;
        if stopped {
          return;
        }
        j := j + 1;
      }
      stopped := false;
    }

    /**
      One tick: at most `limit` queued items, first come first served. It handles
      exactly as many as there are, up to the limit, and gets closer to idle.
     */
    method Tick(limit: int, oracle: TaskQueue.Oracle) returns (processed: nat)
      requires Inv(tasks, items, oracle)
      modifies this
      ensures Ticked(old(tasks), old(items), tasks, items, processed, oracle)
      ensures processed == Min(limit, QueuedCount(old(items)))
      ensures limit >= 1 && ActiveCount(old(tasks)) > 0 ==>
                QueuedCount(items) + ActiveCount(tasks) < QueuedCount(old(items)) + ActiveCount(old(tasks))
    {
      var j, stopped;
      processed, j, stopped := TaskLoop(if limit <= 0 then 0 else limit, oracle);
      if !stopped {
        TickingEnds(old(tasks), old(items), tasks, items, j, processed, oracle);
      }
      TickProgress(old(tasks), old(items), tasks, items, processed, oracle);
    }
  }

  /** The smaller of a limit and a count; a limit below zero is no room. */
  function Min(limit: int, count: nat): nat {
    if limit <= 0 then 0 else if limit < count then limit else count
  }
}
