/**
  What every schedule of the task queue agrees on.

  The fate of an item is where it ends when it is processed alone. No committed
  transaction changes the fate of any item, so whatever the interleaving, a task
  that drains ends with the same items, counters and status.
 */
module TaskQueueSchedules {
  import opened Basics
  import opened TaskQueue

  /** Process one item alone until it leaves the queue. */
  function Fate(cfg: Config, kind: string, i: ItemId, p: Progress): Progress
    decreases cfg.maxAttempts - p.attempts
  {
    if p.status != ItemQueued || p.attempts >= cfg.maxAttempts then p
    else Fate(cfg, kind, i, Attempt(cfg, kind, i, p))
  }

  function FateIn(db: Tables, i: ItemId, cfg: Config): Progress
    requires i in db.items && db.items[i].taskId in db.tasks
  {
    Fate(cfg, db.tasks[db.items[i].taskId].kind, i, db.items[i].progress)
  }

  ghost function Fated(db: Tables, t: TaskId, cfg: Config, status: ItemStatus): set<ItemId>
    requires t in db.tasks
  {
    set i | i in ItemsOf(db, t) && FateIn(db, i, cfg).status == status
  }

  // ---------------------------------------------------------------- the fate of an item, spelled out

  /** The first attempt in from+1..to whose handler succeeds, if any. */
  function FirstSuccess(cfg: Config, kind: string, i: ItemId, from: nat, to: nat): Option<nat>
    decreases to - from
  {
    if from >= to then None
    else if Handle(cfg, kind, i, from + 1).Done? then Some(from + 1)
    else FirstSuccess(cfg, kind, i, from + 1, to)
  }

  /** An item succeeds at its first successful attempt within budget, else it dies having used all of them. */
  lemma {:induction false} FateIsFirstSuccess(cfg: Config, kind: string, i: ItemId, p: Progress)
    requires p.status == ItemQueued && p.attempts < cfg.maxAttempts
    ensures var first, fate := FirstSuccess(cfg, kind, i, p.attempts, cfg.maxAttempts), Fate(cfg, kind, i, p);
            && (first.Some? ==> fate.status == Succeeded && fate.attempts == first.value)
            && (first.None? ==> fate.status == DeadLetter && fate.attempts == cfg.maxAttempts
                                && Handle(cfg, kind, i, cfg.maxAttempts) == Refused(fate.lastError))
    decreases cfg.maxAttempts - p.attempts
  {
    var q := Attempt(cfg, kind, i, p);
    if q.status == ItemQueued {
      FateIsFirstSuccess(cfg, kind, i, q);
    } else {
      assert Fate(cfg, kind, i, q) == q;
      assert q.status == DeadLetter ==> FirstSuccess(cfg, kind, i, p.attempts + 1, cfg.maxAttempts) == None;
    }
  }

  // ---------------------------------------------------------------- schedule independence

  /** A task keeps its items, and each of them its fate. */
  ghost predicate SameFates(db: Tables, db': Tables, t: TaskId, cfg: Config)
    requires t in db.tasks
  {
    && t in db'.tasks
    && ItemsOf(db', t) == ItemsOf(db, t)
    && forall i :: i in ItemsOf(db, t) ==> FateIn(db', i, cfg) == FateIn(db, i, cfg)
  }

  lemma CommitKeepsFate(db: Tables, i: ItemId, cfg: Config, now: int, delay: int, j: ItemId)
    requires Claimable(db, i) && ItemOk(db.items[i], cfg.maxAttempts)
    requires j in db.items && db.items[j].taskId in db.tasks
    ensures FateIn(Commit(db, i, cfg, now, delay), j, cfg) == FateIn(db, j, cfg)
  {
    var db' := Commit(db, i, cfg, now, delay);
    var t := db.items[j].taskId;
    assert db'.tasks[t].kind == db.tasks[t].kind;
    if j == i {
      assert db'.items[i].progress == Attempt(cfg, db.tasks[t].kind, i, db.items[i].progress);
    } else {
      assert db'.items[j] == db.items[j];
    }
  }

  lemma CommitKeepsFates(db: Tables, i: ItemId, cfg: Config, now: int, delay: int, t: TaskId)
    requires Claimable(db, i) && ItemOk(db.items[i], cfg.maxAttempts) && t in db.tasks
    ensures SameFates(db, Commit(db, i, cfg, now, delay), t, cfg)
  {
    var db' := Commit(db, i, cfg, now, delay);
    var item' := db'.items[i];
    assert db'.items == db.items[i := item'] && item'.taskId == db.items[i].taskId;
    assert ItemsOf(db', t) == ItemsOf(db, t);
    forall j | j in ItemsOf(db, t) ensures FateIn(db', j, cfg) == FateIn(db, j, cfg) {
      CommitKeepsFate(db, i, cfg, now, delay, j);
    }
  }

  lemma EnqueueKeepsFates(db: Tables, u: TaskId, targets: seq<string>, ids: seq<ItemId>, now: int,
                          cfg: Config, t: TaskId)
    requires CanEnqueue(db, u, targets, ids) && t in db.tasks
    ensures SameFates(db, EnqueueTask(db, u, targets, ids, now), t, cfg)
  {
    EnqueueAddsFreshRows(db, u, targets, ids, now);
    assert ItemsOf(EnqueueTask(db, u, targets, ids, now), t) == ItemsOf(db, t);
  }

  lemma NextKeepsFates(s: System, a: Action, cfg: Config, t: TaskId)
    requires Inv(s.db, cfg.maxAttempts) && t in s.db.tasks
    ensures SameFates(s.db, Next(s, a, cfg).db, t, cfg)
  {
    match a
    case Enqueue(u, targets, ids, now) =>
      if CanEnqueue(s.db, u, targets, ids) {
        EnqueueKeepsFates(s.db, u, targets, ids, now, cfg, t);
      }
    case Fetch(_, _, _, _) =>
    case Process(w, now, delay, rolledBack) =>
      if Pending(s, w) != [] && !rolledBack && Claimable(s.db, Pending(s, w)[0]) {
        CommitKeepsFates(s.db, Pending(s, w)[0], cfg, now, delay, t);
      }
  }

  lemma {:induction false} RunKeepsFates(s: System, actions: seq<Action>, cfg: Config, t: TaskId)
    requires Inv(s.db, cfg.maxAttempts) && t in s.db.tasks
    ensures SameFates(s.db, Run(s, actions, cfg).db, t, cfg)
    decreases |actions|
  {
    if actions != [] {
      var next := Next(s, actions[0], cfg);
      NextKeepsFates(s, actions[0], cfg, t);
      NextKeepsInvariant(s, actions[0], cfg);
      RunKeepsFates(next, actions[1..], cfg, t);
    }
  }

  /** A schedule that drains a task ends exactly where the items' fates, known beforehand, say. */
  lemma DrainedTaskMeetsItsFate(s: System, actions: seq<Action>, cfg: Config, t: TaskId)
    requires Inv(s.db, cfg.maxAttempts) && t in s.db.tasks
    requires Drained(Run(s, actions, cfg).db, t)
    ensures var db := Run(s, actions, cfg).db;
            && t in db.tasks
            && ItemsOf(db, t) == ItemsOf(s.db, t)
            && (forall i :: i in ItemsOf(db, t) ==> db.items[i].progress == FateIn(s.db, i, cfg))
            && db.tasks[t].success == |Fated(s.db, t, cfg, Succeeded)|
            && db.tasks[t].failed == |Fated(s.db, t, cfg, DeadLetter)|
            && db.tasks[t].status == Verdict(db.tasks[t].success, db.tasks[t].failed)
  {
    var db := Run(s, actions, cfg).db;
    RunKeepsFates(s, actions, cfg, t);
    RunKeepsInvariant(s, actions, cfg);
    forall i | i in ItemsOf(db, t) ensures db.items[i].progress == FateIn(s.db, i, cfg) {
      assert i !in InStatus(db, t, ItemQueued);
      assert FateIn(db, i, cfg) == db.items[i].progress;
    }
    assert InStatus(db, t, Succeeded) == Fated(s.db, t, cfg, Succeeded);
    assert InStatus(db, t, DeadLetter) == Fated(s.db, t, cfg, DeadLetter);
    assert TaskOk(db, t);
  }

  /** And so is its status: completed, failed or partly failed by who is fated to succeed and who to die. */
  lemma DrainedStatusByFates(s: System, actions: seq<Action>, cfg: Config, t: TaskId)
    requires Inv(s.db, cfg.maxAttempts) && t in s.db.tasks
    requires Drained(Run(s, actions, cfg).db, t)
    ensures t in Run(s, actions, cfg).db.tasks
    ensures var status := Run(s, actions, cfg).db.tasks[t].status;
            var dead, alive := Fated(s.db, t, cfg, DeadLetter), Fated(s.db, t, cfg, Succeeded);
            && (status == Completed <==> dead == {})
            && (status == Failed <==> dead != {} && alive == {})
            && (status == PartialFailed <==> dead != {} && alive != {})
  {
    DrainedTaskMeetsItsFate(s, actions, cfg, t);
  }

  /**
    Any two schedules, with any workers, fetches, clocks, retry delays and
    rollbacks, that drain a task agree on the task and on each of its items.
   */
  lemma ScheduleIndependence(s: System, one: seq<Action>, two: seq<Action>, cfg: Config, t: TaskId)
    requires Inv(s.db, cfg.maxAttempts) && t in s.db.tasks
    requires Drained(Run(s, one, cfg).db, t) && Drained(Run(s, two, cfg).db, t)
    ensures var a, b := Run(s, one, cfg).db, Run(s, two, cfg).db;
            && t in a.tasks && t in b.tasks
            && a.tasks[t].status == b.tasks[t].status
            && a.tasks[t].success == b.tasks[t].success
            && a.tasks[t].failed == b.tasks[t].failed
            && ItemsOf(a, t) == ItemsOf(b, t)
            && forall i :: i in ItemsOf(a, t) ==> a.items[i].progress == b.items[i].progress
  {
    DrainedTaskMeetsItsFate(s, one, cfg, t);
    DrainedTaskMeetsItsFate(s, two, cfg, t);
  }

  // ---------------------------------------------------------------- the retry budget

  /** The attempts of t's items made so far, as (item, attempt number) pairs. */
  ghost function Spent(db: Tables, t: TaskId): set<(ItemId, nat)> {
    set i, k: nat | i in db.items && 1 <= k <= db.items[i].progress.attempts && db.items[i].taskId == t :: (i, k)
  }

  predicate CommitsItem(s: System, a: Action, i: ItemId) {
    && a.Process? && !a.rolledBack
    && Pending(s, a.worker) != [] && Pending(s, a.worker)[0] == i
    && Claimable(s.db, i)
  }

  predicate CommitsOn(s: System, a: Action, t: TaskId) {
    && a.Process? && Pending(s, a.worker) != []
    && CommitsItem(s, a, Pending(s, a.worker)[0])
    && s.db.items[Pending(s, a.worker)[0]].taskId == t
  }

  function CommittedSteps(s: System, actions: seq<Action>, cfg: Config, t: TaskId): nat
    decreases |actions|
  {
    if actions == [] then 0
    else (if CommitsOn(s, actions[0], t) then 1 else 0)
         + CommittedSteps(Next(s, actions[0], cfg), actions[1..], cfg, t)
  }

  lemma CommitSpendsOneAttempt(db: Tables, i: ItemId, cfg: Config, now: int, delay: int, t: TaskId)
    requires Claimable(db, i)
    ensures |Spent(Commit(db, i, cfg, now, delay), t)| == |Spent(db, t)| + (if db.items[i].taskId == t then 1 else 0)
  {
    var db' := Commit(db, i, cfg, now, delay);
    assert db'.items == db.items[i := db'.items[i]];
    AttemptIsSpent(db, db', i, t);
  }

  /** Rewriting row i with one more attempt. */
  lemma AttemptIsSpent(db: Tables, db': Tables, i: ItemId, t: TaskId)
    requires i in db.items && i in db'.items && db'.items == db.items[i := db'.items[i]]
    requires db'.items[i].taskId == db.items[i].taskId
    requires db'.items[i].progress.attempts == db.items[i].progress.attempts + 1
    ensures |Spent(db', t)| == |Spent(db, t)| + (if db.items[i].taskId == t then 1 else 0)
  {
    var n := db.items[i].progress.attempts;
    SpentAfterRewrite(db, db', i, t);
    assert (i, n + 1) !in Spent(db, t);
  }

  lemma SpentAfterRewrite(db: Tables, db': Tables, i: ItemId, t: TaskId)
    requires i in db.items && i in db'.items && db'.items == db.items[i := db'.items[i]]
    requires db'.items[i].taskId == db.items[i].taskId
    requires db'.items[i].progress.attempts == db.items[i].progress.attempts + 1
    ensures Spent(db', t) ==
            Spent(db, t) + if db.items[i].taskId == t then {(i, db.items[i].progress.attempts + 1)} else {}
  {
    var added := if db.items[i].taskId == t then {(i, db.items[i].progress.attempts + 1)} else {};
    forall p | p in Spent(db', t) ensures p in Spent(db, t) + added {
      assert p.0 != i ==> db'.items[p.0] == db.items[p.0];
    }
    forall p | p in Spent(db, t) + added ensures p in Spent(db', t) {
      assert p.0 != i ==> db'.items[p.0] == db.items[p.0];
    }
  }

  lemma NextSpendsOneAttempt(s: System, a: Action, cfg: Config, t: TaskId)
    requires t in s.db.tasks
    ensures |Spent(Next(s, a, cfg).db, t)| == |Spent(s.db, t)| + (if CommitsOn(s, a, t) then 1 else 0)
  {
    if a.Process? && Pending(s, a.worker) != [] && CommitsItem(s, a, Pending(s, a.worker)[0]) {
      CommitSpendsOneAttempt(s.db, Pending(s, a.worker)[0], cfg, a.now, a.retryDelay, t);
    } else if a.Enqueue? && CanEnqueue(s.db, a.taskId, a.targets, a.ids) {
      EnqueueAddsFreshRows(s.db, a.taskId, a.targets, a.ids, a.now);
      assert Spent(Next(s, a, cfg).db, t) == Spent(s.db, t);
    }
  }

  lemma {:induction false} RunSpendsOneAttemptPerCommit(s: System, actions: seq<Action>, cfg: Config, t: TaskId)
    requires Inv(s.db, cfg.maxAttempts) && t in s.db.tasks
    ensures |Spent(Run(s, actions, cfg).db, t)| == |Spent(s.db, t)| + CommittedSteps(s, actions, cfg, t)
    decreases |actions|
  {
    if actions != [] {
      NextSpendsOneAttempt(s, actions[0], cfg, t);
      NextKeepsInvariant(s, actions[0], cfg);
      NextKeepsFates(s, actions[0], cfg, t);
      RunSpendsOneAttemptPerCommit(Next(s, actions[0], cfg), actions[1..], cfg, t);
    }
  }

  lemma SpentWithinBudget(db: Tables, t: TaskId, maxAttempts: nat)
    requires Inv(db, maxAttempts) && t in db.tasks
    ensures |Spent(db, t)| <= db.tasks[t].total * maxAttempts
  {
    var grid := Grid(ItemsOf(db, t), maxAttempts);
    forall x | x in Spent(db, t) ensures x in grid {
      assert ItemOk(db.items[x.0], maxAttempts);
    }
    SubsetSize(Spent(db, t), grid);
    GridSize(ItemsOf(db, t), maxAttempts);
    assert TaskOk(db, t);
  }

  /** No schedule commits more than total * maxAttempts item transactions on a task, first to last. */
  lemma RetryBudgetBoundsEverySchedule(s: System, actions: seq<Action>, cfg: Config, t: TaskId)
    requires Inv(s.db, cfg.maxAttempts) && t in s.db.tasks
    ensures |Spent(s.db, t)| + CommittedSteps(s, actions, cfg, t) <= s.db.tasks[t].total * cfg.maxAttempts
  {
    RunSpendsOneAttemptPerCommit(s, actions, cfg, t);
    RunKeepsInvariant(s, actions, cfg);
    RunKeepsFates(s, actions, cfg, t);
    var db := Run(s, actions, cfg).db;
    SpentWithinBudget(db, t, cfg.maxAttempts);
    assert TaskOk(db, t) && TaskOk(s.db, t);
  }

  /** A schedule that uses up the whole budget has drained the task. */
  lemma ExhaustedBudgetDrains(db: Tables, t: TaskId, maxAttempts: nat)
    requires Inv(db, maxAttempts) && t in db.tasks
    requires |Spent(db, t)| == db.tasks[t].total * maxAttempts
    ensures Drained(db, t)
  {
    var grid := Grid(ItemsOf(db, t), maxAttempts);
    forall x | x in Spent(db, t) ensures x in grid {
      assert ItemOk(db.items[x.0], maxAttempts);
    }
    assert TaskOk(db, t);
    GridSize(ItemsOf(db, t), maxAttempts);
    SubsetSize(Spent(db, t), grid);
    forall i | i in ItemsOf(db, t) ensures i !in InStatus(db, t, ItemQueued) {
      assert ItemOk(db.items[i], maxAttempts);
      assert (i, maxAttempts) in grid;
    }
  }
}
