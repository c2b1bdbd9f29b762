/**
  The asynchronous task queue over the tasks and task_items tables.

  A task owns items. A worker fetches a list of queued items, then runs one
  transaction per item: claim, handle, record, settle the task. Several workers
  interleave, each on a list that may have gone stale, and any transaction may
  roll back. What an item's handler answers is an oracle of (item, attempt).
 */
module TaskQueue {
  import opened Basics

  type ItemId = string
  type TaskId = string

  datatype ItemStatus = ItemQueued | ItemRunning | Succeeded | DeadLetter
  datatype TaskStatus = TaskQueued | TaskRunning | Completed | Failed | PartialFailed

  datatype Progress = Progress(status: ItemStatus, attempts: nat, lastError: string)
  datatype Item = Item(taskId: TaskId, target: string, progress: Progress, nextAttemptAt: int)
  datatype Task = Task(kind: string, status: TaskStatus, total: nat, success: nat, failed: nat,
                       startedAt: Option<int>, finishedAt: Option<int>)
  datatype Tables = Tables(tasks: map<TaskId, Task>, items: map<ItemId, Item>)

  datatype Outcome = Done | Refused(message: string)
  type Oracle = (ItemId, nat) -> Outcome
  datatype Config = Config(oracle: Oracle, maxAttempts: nat)

  const BATCH_CUSTOMER_TAGS := "batch_customer_tags"

  predicate Terminal(status: TaskStatus) {
    status in {Completed, Failed, PartialFailed}
  }

  // ---------------------------------------------------------------- one transaction

  function Handle(cfg: Config, kind: string, i: ItemId, attempt: nat): Outcome {
    if kind == BATCH_CUSTOMER_TAGS then cfg.oracle(i, attempt) else Refused("unsupported task type")
  }

  /** What attempt n of an item leaves in its row. */
  function Recorded(outcome: Outcome, n: nat, maxAttempts: nat, lastError: string): Progress {
    match outcome
    case Done => Progress(Succeeded, n, lastError)
    case Refused(message) => Progress(if n >= maxAttempts then DeadLetter else ItemQueued, n, message)
  }

  function Attempt(cfg: Config, kind: string, i: ItemId, p: Progress): Progress {
    var n := p.attempts + 1;
    Recorded(Handle(cfg, kind, i, n), n, cfg.maxAttempts, p.lastError)
  }

  /** Which terminal status a task takes, once every item is accounted for. */
  function Verdict(success: nat, failed: nat): TaskStatus {
    if failed == 0 then Completed else if success == 0 then Failed else PartialFailed
  }

  function Start(task: Task, now: int): Task {
    if task.status == TaskQueued
    then task.(status := TaskRunning, startedAt := Coalesce(task.startedAt, now))
    else task
  }

  function Tally(task: Task, status: ItemStatus): Task {
    match status
    case Succeeded => task.(success := task.success + 1)
    case DeadLetter => task.(failed := task.failed + 1)
    case _ => task
  }

  function Settle(task: Task, now: int): Task {
    if task.success + task.failed >= task.total
    then task.(status := Verdict(task.success, task.failed), finishedAt := Coalesce(task.finishedAt, now))
    else task
  }

  predicate Claimable(db: Tables, i: ItemId) {
    i in db.items && db.items[i].progress.status == ItemQueued && db.items[i].taskId in db.tasks
  }

  /** The committed effect of one item transaction. */
  function Commit(db: Tables, i: ItemId, cfg: Config, now: int, retryDelay: int): Tables
    requires Claimable(db, i)
  {
    var item := db.items[i];
    var task := db.tasks[item.taskId];
    var p := Attempt(cfg, task.kind, i, item.progress);
    var next := if p.status == ItemQueued then now + retryDelay else item.nextAttemptAt;
    Tables(db.tasks[item.taskId := Settle(Tally(Start(task, now), p.status), now)],
           db.items[i := item.(progress := p, nextAttemptAt := next)])
  }

  /** The item's row after its transaction, field by field. */
  lemma CommitMovesItem(db: Tables, i: ItemId, cfg: Config, now: int, retryDelay: int)
    requires Claimable(db, i)
    ensures var db' := Commit(db, i, cfg, now, retryDelay);
            var before_, kind := db.items[i], db.tasks[db.items[i].taskId].kind;
            var n := before_.progress.attempts + 1;
            var supported := kind == "batch_customer_tags";
            var done := supported && cfg.oracle(i, n).Done?;
            && db'.items.Keys == db.items.Keys
            && (forall j :: j in db.items && j != i ==> db'.items[j] == db.items[j])
            && db'.items[i].taskId == before_.taskId && db'.items[i].target == before_.target
            && db'.items[i].progress.attempts == n
            && (db'.items[i].progress.status == Succeeded <==> done)
            && (db'.items[i].progress.status == DeadLetter <==> !done && n >= cfg.maxAttempts)
            && (db'.items[i].progress.status == ItemQueued <==> !done && n < cfg.maxAttempts)
            && db'.items[i].progress.lastError == (if done then before_.progress.lastError
                                                   else if supported then cfg.oracle(i, n).message
                                                   else "unsupported task type")
            && db'.items[i].nextAttemptAt ==
               if !done && n < cfg.maxAttempts then now + retryDelay else before_.nextAttemptAt
  {
  }

  /** And its task's row: which counter moves, when it starts and ends, and how. */
  lemma CommitMovesTask(db: Tables, i: ItemId, cfg: Config, now: int, retryDelay: int)
    requires Claimable(db, i)
    ensures var db', t := Commit(db, i, cfg, now, retryDelay), db.items[i].taskId;
            var before, after, status := db.tasks[t], db'.tasks[t], db'.items[i].progress.status;
            var settled := after.success + after.failed >= after.total;
            && db'.tasks.Keys == db.tasks.Keys
            && (forall u :: u in db.tasks && u != t ==> db'.tasks[u] == db.tasks[u])
            && after.kind == before.kind && after.total == before.total
            && after.success == before.success + (if status == Succeeded then 1 else 0)
            && after.failed == before.failed + (if status == DeadLetter then 1 else 0)
            && (!settled ==> after.status == if before.status == TaskQueued then TaskRunning else before.status)
            && (settled && after.failed == 0 ==> after.status == Completed)
            && (settled && after.failed > 0 && after.success == 0 ==> after.status == Failed)
            && (settled && after.failed > 0 && after.success > 0 ==> after.status == PartialFailed)
            && after.startedAt == (if before.status == TaskQueued && before.startedAt.None? then Some(now)
                                   else before.startedAt)
            && after.finishedAt == if settled && before.finishedAt.None? then Some(now) else before.finishedAt
  {
  }

  // ---------------------------------------------------------------- enqueueing

  predicate Distinct(ids: seq<ItemId>) {
    forall j, k :: 0 <= j < k < |ids| ==> ids[j] != ids[k]
  }

  /** Generated ids do not clash with each other or with existing rows. */
  predicate FreshIds(db: Tables, t: TaskId, ids: seq<ItemId>) {
    && t !in db.tasks
    && Distinct(ids)
    && (forall k :: 0 <= k < |ids| ==> ids[k] !in db.items)
    && (forall i :: i in db.items ==> db.items[i].taskId != t)
  }

  predicate CanEnqueue(db: Tables, t: TaskId, targets: seq<string>, ids: seq<ItemId>) {
    0 < |targets| == |ids| && FreshIds(db, t, ids)
  }

  function NewItem(t: TaskId, target: string, now: int): Item {
    Item(t, target, Progress(ItemQueued, 0, ""), now)
  }

  /** The first n item rows of a new task. */
  function NewItems(t: TaskId, targets: seq<string>, ids: seq<ItemId>, now: int, n: nat): map<ItemId, Item>
    requires n <= |targets| == |ids|
  {
    if n == 0 then map[]
    else NewItems(t, targets, ids, now, n - 1)[ids[n - 1] := NewItem(t, targets[n - 1], now)]
  }

  function ToSet(ids: seq<ItemId>): set<ItemId> {
    set k | 0 <= k < |ids| :: ids[k]
  }

  lemma {:induction false} DistinctSize(ids: seq<ItemId>)
    requires Distinct(ids)
    ensures |ToSet(ids)| == |ids|
  {
    if ids != [] {
      var last := |ids| - 1;
      DistinctSize(ids[..last]);
      assert ToSet(ids) == ToSet(ids[..last]) + {ids[last]};
    }
  }

  lemma ToSetSnoc(ids: seq<ItemId>, n: nat)
    requires n < |ids|
    ensures ToSet(ids[..n + 1]) == ToSet(ids[..n]) + {ids[n]}
  {
    assert ids[..n + 1][n] == ids[n];
    assert forall k :: 0 <= k < n ==> ids[..n + 1][k] == ids[..n][k];
  }

  lemma {:induction false} NewItemsKeys(t: TaskId, targets: seq<string>, ids: seq<ItemId>, now: int, n: nat)
    requires n <= |targets| == |ids|
    ensures NewItems(t, targets, ids, now, n).Keys == ToSet(ids[..n])
  {
    if n > 0 {
      NewItemsKeys(t, targets, ids, now, n - 1);
      ToSetSnoc(ids, n - 1);
    }
  }

  /** The k-th fresh id names a fresh row for the k-th target, and there are no other rows. */
  lemma {:induction false} NewItemsContents(t: TaskId, targets: seq<string>, ids: seq<ItemId>, now: int, n: nat)
    requires n <= |targets| == |ids| && Distinct(ids)
    ensures var rows := NewItems(t, targets, ids, now, n);
            && rows.Keys == ToSet(ids[..n])
            && forall k :: 0 <= k < n ==>
                 ids[k] in rows && rows[ids[k]] == Item(t, targets[k], Progress(ItemQueued, 0, ""), now)
  {
    NewItemsKeys(t, targets, ids, now, n);
    if n > 0 {
      NewItemsContents(t, targets, ids, now, n - 1);
      var rows := NewItems(t, targets, ids, now, n);
      forall k | 0 <= k < n ensures ids[k] in rows && rows[ids[k]] == NewItem(t, targets[k], now) {
        assert k < n - 1 ==> ids[k] != ids[n - 1];
      }
    }
  }

  function EnqueueTask(db: Tables, t: TaskId, targets: seq<string>, ids: seq<ItemId>, now: int): Tables
    requires CanEnqueue(db, t, targets, ids)
  {
    Tables(db.tasks[t := Task(BATCH_CUSTOMER_TAGS, TaskQueued, |targets|, 0, 0, None, None)],
           db.items + NewItems(t, targets, ids, now, |ids|))
  }

  /** Enqueueing adds the task's row and one untouched row per fresh id, and rewrites none. */
  lemma EnqueueAddsFreshRows(db: Tables, t: TaskId, targets: seq<string>, ids: seq<ItemId>, now: int)
    requires CanEnqueue(db, t, targets, ids)
    ensures var db' := EnqueueTask(db, t, targets, ids, now);
            && db'.tasks == db.tasks[t := Task("batch_customer_tags", TaskQueued, |targets|, 0, 0, None, None)]
            && db'.items.Keys == db.items.Keys + ToSet(ids)
            && ToSet(ids) !! db.items.Keys
            && (forall i :: i in db.items ==> db'.items[i] == db.items[i])
            && (forall i :: i in ToSet(ids) ==>
                  && db'.items[i].taskId == t && db'.items[i].nextAttemptAt == now
                  && db'.items[i].progress == Progress(ItemQueued, 0, ""))
            && (forall k :: 0 <= k < |ids| ==> ids[k] in db'.items && db'.items[ids[k]].target == targets[k])
  {
    NewItemsContents(t, targets, ids, now, |ids|);
    assert ids[..|ids|] == ids;
  }

  // ---------------------------------------------------------------- several workers

  /** What a fetch may return: at most batchSize distinct due items of active tasks. */
  predicate FetchResult(db: Tables, ids: seq<ItemId>, batchSize: nat, now: int) {
    && |ids| <= batchSize
    && Distinct(ids)
    && forall k :: 0 <= k < |ids| ==>
         && Claimable(db, ids[k])
         && db.items[ids[k]].nextAttemptAt <= now
         && db.tasks[db.items[ids[k]].taskId].status in {TaskQueued, TaskRunning}
  }

  /** Fetched items are different, no more than asked for, queued, due, and of tasks that have not ended. */
  lemma FetchedItemsAreDue(db: Tables, ids: seq<ItemId>, batchSize: nat, now: int)
    requires FetchResult(db, ids, batchSize, now)
    ensures |ids| <= batchSize && |ToSet(ids)| == |ids|
    ensures forall i :: i in ToSet(ids) ==>
              && i in db.items && db.items[i].progress.status == ItemQueued && db.items[i].nextAttemptAt <= now
              && db.items[i].taskId in db.tasks && !Terminal(db.tasks[db.items[i].taskId].status)
  {
    DistinctSize(ids);
  }

  /** The tables, and the part of its fetched list each worker still has to process. */
  datatype System = System(db: Tables, lists: map<nat, seq<ItemId>>)

  datatype Action =
    | Enqueue(taskId: TaskId, targets: seq<string>, ids: seq<ItemId>, now: int)
    | Fetch(worker: nat, batchSize: nat, fetched: seq<ItemId>, now: int)
    | Process(worker: nat, now: int, retryDelay: int, rolledBack: bool)

  function Pending(s: System, worker: nat): seq<ItemId> {
    if worker in s.lists then s.lists[worker] else []
  }

  /** One action; an action that is not enabled leaves the system as it is. */
  function Next(s: System, a: Action, cfg: Config): System {
    match a
    case Enqueue(t, targets, ids, now) =>
      if CanEnqueue(s.db, t, targets, ids) then s.(db := EnqueueTask(s.db, t, targets, ids, now)) else s
    case Fetch(w, batchSize, ids, now) =>
      if Pending(s, w) == [] && FetchResult(s.db, ids, batchSize, now)
      then s.(lists := s.lists[w := ids]) else s
    case Process(w, now, retryDelay, rolledBack) =>
      var list := Pending(s, w);
      if list == [] then s
      else
        var db := if rolledBack || !Claimable(s.db, list[0]) then s.db
                  else Commit(s.db, list[0], cfg, now, retryDelay);
        System(db, s.lists[w := list[1..]])
  }

  function Run(s: System, actions: seq<Action>, cfg: Config): System
    decreases |actions|
  {
    if actions == [] then s else Run(Next(s, actions[0], cfg), actions[1..], cfg)
  }

  // ---------------------------------------------------------------- the queue invariant

  ghost function ItemsOf(db: Tables, t: TaskId): set<ItemId> {
    set i | i in db.items && db.items[i].taskId == t
  }

  ghost function InStatus(db: Tables, t: TaskId, status: ItemStatus): set<ItemId> {
    set i | i in db.items && db.items[i].taskId == t && db.items[i].progress.status == status
  }

  ghost predicate Drained(db: Tables, t: TaskId) {
    InStatus(db, t, ItemQueued) == {}
  }

  predicate ItemOk(item: Item, maxAttempts: nat) {
    match item.progress.status
    case ItemQueued => item.progress.attempts < maxAttempts
    case ItemRunning => false
    case Succeeded => 1 <= item.progress.attempts <= maxAttempts
    case DeadLetter => item.progress.attempts == maxAttempts
  }

  /** Counters, status and timestamps of a task all agree with its items. */
  ghost predicate TaskOk(db: Tables, t: TaskId)
    requires t in db.tasks
  {
    var task := db.tasks[t];
    && task.success == |InStatus(db, t, Succeeded)|
    && task.failed == |InStatus(db, t, DeadLetter)|
    && 0 < task.total == |ItemsOf(db, t)|
    && (Terminal(task.status) <==> Drained(db, t))
    && (Terminal(task.status) ==> task.status == Verdict(task.success, task.failed))
    && (task.status == TaskQueued <==> forall i :: i in ItemsOf(db, t) ==> db.items[i].progress.attempts == 0)
    && (task.startedAt.Some? <==> task.status != TaskQueued)
    && (task.finishedAt.Some? <==> Terminal(task.status))
  }

  ghost predicate Inv(db: Tables, maxAttempts: nat) {
    && 1 <= maxAttempts
    && (forall i :: i in db.items ==> db.items[i].taskId in db.tasks && ItemOk(db.items[i], maxAttempts))
    && (forall t :: t in db.tasks ==> TaskOk(db, t))
  }

  /** Nothing runs between transactions, so queued, succeeded and dead letter share out a task's items. */
  lemma StatusesPartition(db: Tables, t: TaskId, maxAttempts: nat)
    requires forall i :: i in db.items ==> ItemOk(db.items[i], maxAttempts)
    ensures |ItemsOf(db, t)| ==
            |InStatus(db, t, ItemQueued)| + |InStatus(db, t, Succeeded)| + |InStatus(db, t, DeadLetter)|
  {
    var q, s, d := InStatus(db, t, ItemQueued), InStatus(db, t, Succeeded), InStatus(db, t, DeadLetter);
    assert ItemsOf(db, t) == (q + s) + d by {
      forall i | i in ItemsOf(db, t) ensures i in q + s + d {
        assert ItemOk(db.items[i], maxAttempts);
      }
    }
    assert q !! s && (q + s) !! d;
    assert |q + s| == |q| + |s|;
  }

  /** Rewriting one queued item moves exactly that item between the status sets of its task. */
  lemma RewritingMovesOneItem(db: Tables, db': Tables, i: ItemId, item: Item, status: ItemStatus)
    requires i in db.items && db'.items == db.items[i := item] && item.taskId == db.items[i].taskId
    requires db.items[i].progress.status == ItemQueued
    ensures |InStatus(db', item.taskId, status)| ==
              |InStatus(db, item.taskId, status)|
              - (if status == ItemQueued then 1 else 0)
              + (if status == item.progress.status then 1 else 0)
  {
    var before, after := InStatus(db, item.taskId, status), InStatus(db', item.taskId, status);
    SizeWithout(before, i);
    assert i in before <==> status == ItemQueued;
    RewrittenStatusSet(db, db', i, item, status);
    if status == item.progress.status {
      assert |(before - {i}) + {i}| == |before - {i}| + 1;
    }
  }

  lemma RewrittenStatusSet(db: Tables, db': Tables, i: ItemId, item: Item, status: ItemStatus)
    requires i in db.items && db'.items == db.items[i := item] && item.taskId == db.items[i].taskId
    ensures InStatus(db', item.taskId, status) ==
            (InStatus(db, item.taskId, status) - {i}) + if status == item.progress.status then {i} else {}
  {
  }

  lemma CommitLeavesOtherTasks(db: Tables, i: ItemId, cfg: Config, now: int, delay: int, t: TaskId)
    requires Claimable(db, i)
    requires t in db.tasks && t != db.items[i].taskId && TaskOk(db, t)
    ensures TaskOk(Commit(db, i, cfg, now, delay), t)
  {
    var db' := Commit(db, i, cfg, now, delay);
    assert db'.tasks[t] == db.tasks[t];
    assert ItemsOf(db', t) == ItemsOf(db, t);
    forall status ensures InStatus(db', t, status) == InStatus(db, t, status) {
    }
    assert forall j :: j in ItemsOf(db, t) ==> db'.items[j] == db.items[j];
  }

  lemma CommitKeepsItemsOk(db: Tables, i: ItemId, cfg: Config, now: int, delay: int)
    requires Claimable(db, i) && forall j :: j in db.items ==> ItemOk(db.items[j], cfg.maxAttempts)
    ensures var db' := Commit(db, i, cfg, now, delay);
            forall j :: j in db'.items ==> ItemOk(db'.items[j], cfg.maxAttempts)
  {
  }

  lemma CommitSettlesItsTask(db: Tables, i: ItemId, cfg: Config, now: int, delay: int)
    requires Claimable(db, i) && TaskOk(db, db.items[i].taskId)
    requires forall j :: j in db.items ==> ItemOk(db.items[j], cfg.maxAttempts)
    ensures TaskOk(Commit(db, i, cfg, now, delay), db.items[i].taskId)
  {
    var db', t := Commit(db, i, cfg, now, delay), db.items[i].taskId;
    assert ItemsOf(db', t) == ItemsOf(db, t);
    RewritingMovesOneItem(db, db', i, db'.items[i], ItemQueued);
    RewritingMovesOneItem(db, db', i, db'.items[i], Succeeded);
    RewritingMovesOneItem(db, db', i, db'.items[i], DeadLetter);
    CommitKeepsItemsOk(db, i, cfg, now, delay);
    StatusesPartition(db', t, cfg.maxAttempts);
    assert i in ItemsOf(db', t) && db'.items[i].progress.attempts > 0;
    assert i in InStatus(db, t, ItemQueued);
  }

  lemma CommitKeepsInvariant(db: Tables, i: ItemId, cfg: Config, now: int, delay: int)
    requires Inv(db, cfg.maxAttempts) && Claimable(db, i)
    ensures Inv(Commit(db, i, cfg, now, delay), cfg.maxAttempts)
  {
    var db' := Commit(db, i, cfg, now, delay);
    forall t | t in db'.tasks ensures TaskOk(db', t) {
      if t == db.items[i].taskId {
        CommitSettlesItsTask(db, i, cfg, now, delay);
      } else {
        CommitLeavesOtherTasks(db, i, cfg, now, delay, t);
      }
    }
  }

  lemma EnqueueLeavesOtherTasks(db: Tables, t: TaskId, targets: seq<string>, ids: seq<ItemId>, now: int, u: TaskId)
    requires CanEnqueue(db, t, targets, ids)
    requires u in db.tasks && TaskOk(db, u)
    ensures TaskOk(EnqueueTask(db, t, targets, ids, now), u)
  {
    var db' := EnqueueTask(db, t, targets, ids, now);
    EnqueueAddsFreshRows(db, t, targets, ids, now);
    assert ItemsOf(db', u) == ItemsOf(db, u);
    forall status ensures InStatus(db', u, status) == InStatus(db, u, status) {
    }
    assert forall j :: j in ItemsOf(db, u) ==> db'.items[j] == db.items[j];
  }

  lemma EnqueuedItems(db: Tables, t: TaskId, targets: seq<string>, ids: seq<ItemId>, now: int)
    requires CanEnqueue(db, t, targets, ids)
    ensures var db' := EnqueueTask(db, t, targets, ids, now);
            && ItemsOf(db', t) == InStatus(db', t, ItemQueued) == ToSet(ids)
            && InStatus(db', t, Succeeded) == {} == InStatus(db', t, DeadLetter)
            && forall i :: i in ItemsOf(db', t) ==> db'.items[i].progress.attempts == 0
  {
    EnqueueAddsFreshRows(db, t, targets, ids, now);
  }

  lemma EnqueueStartsTaskOk(db: Tables, t: TaskId, targets: seq<string>, ids: seq<ItemId>, now: int)
    requires CanEnqueue(db, t, targets, ids)
    ensures var db' := EnqueueTask(db, t, targets, ids, now);
            TaskOk(db', t) && ItemsOf(db', t) == InStatus(db', t, ItemQueued) == ToSet(ids)
  {
    EnqueuedItems(db, t, targets, ids, now);
    DistinctSize(ids);
    assert ids[0] in ToSet(ids);
  }

  lemma EnqueueKeepsInvariant(db: Tables, t: TaskId, targets: seq<string>, ids: seq<ItemId>, now: int, maxAttempts: nat)
    requires Inv(db, maxAttempts) && CanEnqueue(db, t, targets, ids)
    ensures Inv(EnqueueTask(db, t, targets, ids, now), maxAttempts)
  {
    var db' := EnqueueTask(db, t, targets, ids, now);
    EnqueueAddsFreshRows(db, t, targets, ids, now);
    forall u | u in db'.tasks ensures TaskOk(db', u) {
      if u == t {
        EnqueueStartsTaskOk(db, t, targets, ids, now);
      } else {
        EnqueueLeavesOtherTasks(db, t, targets, ids, now, u);
      }
    }
  }

  lemma NextKeepsInvariant(s: System, a: Action, cfg: Config)
    requires Inv(s.db, cfg.maxAttempts)
    ensures Inv(Next(s, a, cfg).db, cfg.maxAttempts)
  {
    match a
    case Enqueue(t, targets, ids, now) =>
      if CanEnqueue(s.db, t, targets, ids) {
        EnqueueKeepsInvariant(s.db, t, targets, ids, now, cfg.maxAttempts);
      }
    case Fetch(_, _, _, _) =>
    case Process(w, now, delay, rolledBack) =>
      if Pending(s, w) != [] && !rolledBack && Claimable(s.db, Pending(s, w)[0]) {
        CommitKeepsInvariant(s.db, Pending(s, w)[0], cfg, now, delay);
      }
  }

  /** Every committed state of every schedule satisfies the queue invariant. */
  lemma {:induction false} RunKeepsInvariant(s: System, actions: seq<Action>, cfg: Config)
    requires Inv(s.db, cfg.maxAttempts)
    ensures Inv(Run(s, actions, cfg).db, cfg.maxAttempts)
    decreases |actions|
  {
    if actions != [] {
      NextKeepsInvariant(s, actions[0], cfg);
      RunKeepsInvariant(Next(s, actions[0], cfg), actions[1..], cfg);
    }
  }

  /** A task's status in every committed state, told from its items alone. */
  lemma StatusTellsItems(db: Tables, t: TaskId, maxAttempts: nat)
    requires Inv(db, maxAttempts) && t in db.tasks
    ensures var status, dead, alive := db.tasks[t].status, InStatus(db, t, DeadLetter), InStatus(db, t, Succeeded);
            && (status == Completed <==> Drained(db, t) && dead == {})
            && (status == Failed <==> Drained(db, t) && dead != {} && alive == {})
            && (status == PartialFailed <==> Drained(db, t) && dead != {} && alive != {})
            && (status == TaskRunning <==>
                !Drained(db, t) && exists i :: i in ItemsOf(db, t) && db.items[i].progress.attempts > 0)
  {
    assert TaskOk(db, t);
  }

  lemma EmptyTablesSatisfyInvariant(maxAttempts: nat)
    requires 1 <= maxAttempts
    ensures Inv(Tables(map[], map[]), maxAttempts)
  {
  }
}
