/**
  The database path of the worker, statement by statement, over mutable tables.
  Each method is tied to the transaction it performs in module TaskQueue.
 */
module TaskStores {
  import opened Basics
  import opened TaskQueue

  /** The statements of one item transaction; any of them may fail. */
  datatype Statement = Claim | StartTask | RecordItem | RecordTask | SettleTask | CommitTransaction

  datatype EnqueueError = CustomerIdsRequired | TagsRequired | DatabaseFailed

  /** The statement of an enqueueing transaction that fails. */
  datatype EnqueueFault = BeginFails | TaskInsertFails | ItemInsertFails(position: nat) | CommitFails

  /** A retried item writes no counter, so it runs one statement less. */
  function StatementsRun(p: Progress): set<Statement> {
    {Claim, StartTask, RecordItem, SettleTask, CommitTransaction}
    + (if p.status == ItemQueued then {} else {RecordTask})
  }

  /** The worker's loop as a schedule: one Process action per fetched item, in order. */
  predicate OnePerItem(actions: seq<Action>, clock: seq<int>, retryDelay: int, fails: seq<set<Statement>>)
  {
    && |actions| == |clock| == |fails|
    && forall k :: 0 <= k < |actions| ==>
         && actions[k].Process?
         && actions[k] == Process(0, clock[k], retryDelay, actions[k].rolledBack)
         && (actions[k].rolledBack ==> fails[k] != {})
  }

  lemma OnePerItemSnoc(actions: seq<Action>, action: Action, clock: seq<int>, k: nat, retryDelay: int,
                       fails: seq<set<Statement>>)
    requires k < |clock| == |fails| && OnePerItem(actions, clock[..k], retryDelay, fails[..k])
    requires action.Process? && action == Process(0, clock[k], retryDelay, action.rolledBack)
    requires action.rolledBack ==> fails[k] != {}
    ensures OnePerItem(actions + [action], clock[..k + 1], retryDelay, fails[..k + 1])
  {
  }

  lemma {:induction false} RunSnoc(s: System, actions: seq<Action>, a: Action, cfg: Config)
    ensures Run(s, actions + [a], cfg) == Next(Run(s, actions, cfg), a, cfg)
    decreases |actions|
  {
    if actions == [] {
      assert [a][1..] == [];
    } else {
      assert (actions + [a])[1..] == actions[1..] + [a];
      RunSnoc(Next(s, actions[0], cfg), actions[1..], a, cfg);
    }
  }

  lemma EveryStatementRuns(p: Progress, fails: set<Statement>)
    ensures fails !! StatementsRun(p) <==>
            && Claim !in fails && StartTask !in fails && RecordItem !in fails && SettleTask !in fails
            && CommitTransaction !in fails && (p.status != ItemQueued ==> RecordTask !in fails)
  {
  }

  class TaskStore {
    var tasks: map<TaskId, Task>
    var items: map<ItemId, Item>

    function View(): Tables
      reads this
    {
      Tables(tasks, items)
    }

    constructor ()
      ensures View() == Tables(map[], map[])
      ensures forall maxAttempts: nat :: 1 <= maxAttempts ==> Inv(View(), maxAttempts)
    {
      tasks, items := map[], map[];
      new;
      forall maxAttempts: nat | 1 <= maxAttempts ensures Inv(View(), maxAttempts) {
        EmptyTablesSatisfyInvariant(maxAttempts);
      }
    }

    /** The item rows of a new task, in order, up to the first insert that fails. */
    method InsertItems(t: TaskId, customerIds: seq<string>, ids: seq<ItemId>, now: int, failingInsert: Option<nat>)
      returns (ok: bool)
      requires |ids| == |customerIds| && Distinct(ids)
      modifies this`items
      ensures ok <==> failingInsert.None? || |ids| <= failingInsert.value
      ensures ok ==> items == old(items) + NewItems(t, customerIds, ids, now, |ids|)
    {
      var k := 0;
      while k < |customerIds|
        invariant 0 <= k <= |customerIds|
        invariant failingInsert.Some? ==> k <= failingInsert.value
        invariant items == old(items) + NewItems(t, customerIds, ids, now, k)
      {
        if failingInsert == Some(k) {
          return false;
        }
        items := items[ids[k] := NewItem(t, customerIds[k], now)];
        k := k + 1;
      }
      return true;
    }

    /** One transaction: a task row, then one item row per customer; it commits whole or leaves no trace. */
    method EnqueueBatchTagTask(customerIds: seq<string>, tags: seq<string>, t: TaskId, ids: seq<ItemId>,
                               now: int, fault: Option<EnqueueFault>)
      returns (error: Option<EnqueueError>)
      requires |ids| == |customerIds| && FreshIds(View(), t, ids)
      modifies this
      ensures customerIds == [] ==> error == Some(CustomerIdsRequired)
      ensures customerIds != [] && tags == [] ==> error == Some(TagsRequired)
      ensures customerIds != [] && tags != [] ==>
                error == if fault.Some? && (fault.value.ItemInsertFails? ==> fault.value.position < |ids|)
                         then Some(DatabaseFailed) else None
      ensures error.Some? ==> View() == old(View())
      ensures error.None? ==> CanEnqueue(old(View()), t, customerIds, ids)
      ensures error.None? ==> View() == EnqueueTask(old(View()), t, customerIds, ids, now)
    {
      if customerIds == [] {
        return Some(CustomerIdsRequired);
      }
      if tags == [] {
        return Some(TagsRequired);
      }
      if fault == Some(BeginFails) {
        return Some(DatabaseFailed);
      }
      var savedTasks, savedItems := tasks, items;
      if fault == Some(TaskInsertFails) {
        return Some(DatabaseFailed);
      }
      tasks := tasks[t := Task(BATCH_CUSTOMER_TAGS, TaskQueued, |customerIds|, 0, 0, None, None)];
      var failingInsert := if fault.Some? && fault.value.ItemInsertFails? then Some(fault.value.position) else None;
      var ok := InsertItems(t, customerIds, ids, now, failingInsert);
      if !ok || fault == Some(CommitFails) {
        tasks, items := savedTasks, savedItems;
        return Some(DatabaseFailed);
      }
      return None;
    }

    /** Take the item out of the queue; None when it is no longer queued or the statement fails. */
    method ClaimItem(itemId: ItemId, fails: set<Statement>) returns (attempts: Option<nat>)
      modifies this`items
      ensures attempts.Some? <==>
                itemId in old(items) && old(items)[itemId].progress.status == ItemQueued && Claim !in fails
      ensures attempts.None? ==> items == old(items)
      ensures attempts.Some? ==>
                var row := old(items)[itemId];
                && attempts.value == row.progress.attempts + 1
                && items == old(items)[itemId :=
                     row.(progress := Progress(ItemRunning, attempts.value, row.progress.lastError))]
    {
      if itemId !in items || items[itemId].progress.status != ItemQueued || Claim in fails {
        return None;
      }
      var row := items[itemId];
      var n := row.progress.attempts + 1;
      items := items[itemId := row.(progress := Progress(ItemRunning, n, row.progress.lastError))];
      return Some(n);
    }

    /** Write the handler's outcome to the item, and to the task's counters unless the item will be retried. */
    method RecordOutcome(itemId: ItemId, taskId: TaskId, outcome: Outcome, maxAttempts: nat, dueAgain: int,
                         fails: set<Statement>)
      returns (ok: bool)
      requires itemId in items && taskId in tasks
      modifies this
      ensures var row := old(items)[itemId];
              var p := Recorded(outcome, row.progress.attempts, maxAttempts, row.progress.lastError);
              && (ok <==> RecordItem !in fails && (RecordTask !in fails || p.status == ItemQueued))
              && (ok ==> tasks == old(tasks)[taskId := Tally(old(tasks)[taskId], p.status)])
              && (ok ==> items == old(items)[itemId := row.(progress := p,
                   nextAttemptAt := if p.status == ItemQueued then dueAgain else row.nextAttemptAt)])
    {
      if RecordItem in fails {
        return false;
      }
      var row := items[itemId];
      var n := row.progress.attempts;
      match outcome {
        case Refused(message) =>
          if n < maxAttempts {
            items := items[itemId := row.(progress := Progress(ItemQueued, n, message), nextAttemptAt := dueAgain)];
            return true;
          }
          items := items[itemId := row.(progress := Progress(DeadLetter, n, message))];
          if RecordTask in fails {
            return false;
          }
          tasks := tasks[taskId := tasks[taskId].(failed := tasks[taskId].failed + 1)];
        case Done =>
          items := items[itemId := row.(progress := row.progress.(status := Succeeded))];
          if RecordTask in fails {
            return false;
          }
          tasks := tasks[taskId := tasks[taskId].(success := tasks[taskId].success + 1)];
      }
      return true;
    }

    /** The task starts with its first claimed item. */
    method MarkStarted(taskId: TaskId, now: int)
      requires taskId in tasks
      modifies this`tasks
      ensures tasks == old(tasks)[taskId := Start(old(tasks)[taskId], now)]
    {
      var task := tasks[taskId];
      if task.status == TaskQueued {
        tasks := tasks[taskId := task.(status := TaskRunning, startedAt := Coalesce(task.startedAt, now))];
      }
    }

    /** The task ends once its counters cover all its items. */
    method MarkFinished(taskId: TaskId, now: int)
      requires taskId in tasks
      modifies this`tasks
      ensures tasks == old(tasks)[taskId := Settle(old(tasks)[taskId], now)]
    {
      var task := tasks[taskId];
      if task.success + task.failed >= task.total {
        tasks := tasks[taskId := task.(status := Verdict(task.success, task.failed),
                                       finishedAt := Coalesce(task.finishedAt, now))];
      }
    }

    /** The statements up to the one that records the outcome. */
    method ClaimAndRecord(itemId: ItemId, taskId: TaskId, cfg: Config, now: int, retryDelay: int,
                          fails: set<Statement>)
      returns (ok: bool)
      requires taskId in tasks
      modifies this
      ensures var claims := itemId in old(items) && old(items)[itemId].progress.status == ItemQueued && Claim !in fails;
              && (!claims ==> !ok)
              && (claims ==>
                    var row, task := old(items)[itemId], old(tasks)[taskId];
                    var p := Attempt(cfg, task.kind, itemId, row.progress);
                    && (ok <==> StartTask !in fails && RecordItem !in fails
                                && (RecordTask !in fails || p.status == ItemQueued))
                    && (ok ==> tasks == old(tasks)[taskId := Tally(Start(task, now), p.status)])
                    && (ok ==> items == old(items)[itemId := row.(progress := p,
                         nextAttemptAt := if p.status == ItemQueued then now + retryDelay else row.nextAttemptAt)]))
    {
      var attempts := ClaimItem(itemId, fails);
      if attempts.None? || StartTask in fails {
        return false;
      }
      MarkStarted(taskId, now);
      var outcome := Handle(cfg, tasks[taskId].kind, itemId, attempts.value);
      ok := RecordOutcome(itemId, taskId, outcome, cfg.maxAttempts, now + retryDelay, fails);
    }

    /** The statements of a transaction, up to its commit. */
    method RunStatements(itemId: ItemId, taskId: TaskId, cfg: Config, now: int, retryDelay: int,
                         fails: set<Statement>)
      returns (ok: bool)
      requires taskId in tasks && (itemId in items ==> items[itemId].taskId == taskId)
      modifies this
      ensures ok <==>
                && Claimable(old(View()), itemId)
                && fails !! StatementsRun(Attempt(cfg, old(tasks)[taskId].kind, itemId, old(items)[itemId].progress))
      ensures ok ==> View() == Commit(old(View()), itemId, cfg, now, retryDelay)
    {
      if itemId in items {
        EveryStatementRuns(Attempt(cfg, tasks[taskId].kind, itemId, items[itemId].progress), fails);
      }
      ok := ClaimAndRecord(itemId, taskId, cfg, now, retryDelay, fails);
      if !ok || SettleTask in fails || CommitTransaction in fails {
        return false;
      }
      MarkFinished(taskId, now);
    }

    /** One item transaction: every statement takes effect, or none does. */
    method ProcessQueuedTaskItem(itemId: ItemId, taskId: TaskId, cfg: Config, now: int, retryDelay: int,
                                 fails: set<Statement>)
      returns (committed: bool)
      requires taskId in tasks && (itemId in items ==> items[itemId].taskId == taskId)
      modifies this
      ensures committed <==>
                && Claimable(old(View()), itemId)
                && fails !! StatementsRun(Attempt(cfg, old(tasks)[taskId].kind, itemId, old(items)[itemId].progress))
      ensures View() == if committed then Commit(old(View()), itemId, cfg, now, retryDelay) else old(View())
    {
      var savedTasks, savedItems := tasks, items;
      committed := RunStatements(itemId, taskId, cfg, now, retryDelay, fails);
      if !committed {
        tasks, items := savedTasks, savedItems;
      }
    }

    /** One turn of the worker's loop, as one more action of its schedule. */
    method ProcessNext(list: seq<ItemId>, k: nat, cfg: Config, now: int, retryDelay: int, fails: set<Statement>,
                       ghost start: System, ghost actions: seq<Action>)
      returns (action: Action)
      requires k < |list| && list[k] in items && items[list[k]].taskId in tasks
      requires Run(start, actions, cfg) == System(View(), map[0 := list[k..]])
      modifies this
      ensures action.Process? && action == Process(0, now, retryDelay, action.rolledBack)
      ensures action.rolledBack ==> fails != {}
      ensures Run(start, actions + [action], cfg) == System(View(), map[0 := list[k + 1..]])
      ensures old(items).Keys <= items.Keys && old(tasks).Keys <= tasks.Keys
      ensures forall i :: i in old(items) ==> items[i].taskId == old(items)[i].taskId
    {
      var committed := ProcessQueuedTaskItem(list[k], items[list[k]].taskId, cfg, now, retryDelay, fails);
      action := Process(0, now, retryDelay, !committed && fails != {});
      RunSnoc(start, actions, action, cfg);
      assert map[0 := list[k..]][0 := list[k..][1..]] == map[0 := list[k + 1..]];
    }

    /** The worker's pass over the list it fetched; a failed item is logged and the pass goes on. */
    method ProcessQueuedTaskItems(list: seq<ItemId>, cfg: Config, clock: seq<int>, retryDelay: int,
                                  fails: seq<set<Statement>>)
      returns (actions: seq<Action>)
      requires |clock| == |list| == |fails|
      requires forall k :: 0 <= k < |list| ==> list[k] in items && items[list[k]].taskId in tasks
      modifies this
      ensures OnePerItem(actions, clock, retryDelay, fails)
      ensures Run(System(old(View()), map[0 := list]), actions, cfg) == System(View(), map[0 := []])
    {
      ghost var start := System(View(), map[0 := list]);
      actions := [];
      var k := 0;
      while k < |list|
        invariant 0 <= k <= |list|
        invariant OnePerItem(actions, clock[..k], retryDelay, fails[..k])
        invariant Run(start, actions, cfg) == System(View(), map[0 := list[k..]])
        invariant forall j :: 0 <= j < |list| ==> list[j] in items && items[list[j]].taskId in tasks
      {
        var action := ProcessNext(list, k, cfg, clock[k], retryDelay, fails[k], start, actions);
        OnePerItemSnoc(actions, action, clock, k, retryDelay, fails);
        actions := actions + [action];
        k := k + 1;
      }
      assert clock[..k] == clock && fails[..k] == fails && list[k..] == [];
    }
  }
}
