/**
  The process-local loop and the database worker agree: a drained task ends the
  same in both, when the database worker gives each item a single attempt.
 */
module QueueAgreement {
  import opened Basics
  import Db = TaskQueue
  import Schedules = TaskQueueSchedules
  import opened MemoryTaskQueue

  ghost function IdsIn(items: seq<Item>, t: string, status: Status): set<string> {
    set k | 0 <= k < |items| && items[k].taskId == t && items[k].status == status :: items[k].id
  }

  ghost function IdsOf(items: seq<Item>, t: string): set<string> {
    set k | 0 <= k < |items| && items[k].taskId == t :: items[k].id
  }

  lemma IdsInSnoc(items: seq<Item>, item: Item, t: string, status: Status)
    ensures IdsIn(items + [item], t, status) ==
            IdsIn(items, t, status) + (if item.taskId == t && item.status == status then {item.id} else {})
  {
    var all := items + [item];
    forall x | x in IdsIn(items, t, status) ensures x in IdsIn(all, t, status) {
      var k :| 0 <= k < |items| && items[k].taskId == t && items[k].status == status && items[k].id == x;
      assert all[k] == items[k];
    }
    assert all[|items|] == item;
  }

  lemma {:induction false} CountIsSetSize(items: seq<Item>, t: string, status: Status)
    requires forall i, j :: 0 <= i < j < |items| ==> items[i].id != items[j].id
    ensures Count(items, t, status) == |IdsIn(items, t, status)|
  {
    if items == [] {
      assert IdsIn(items, t, status) == {};
    } else {
      var last := |items| - 1;
      var init, item := items[..last], items[last];
      CountIsSetSize(init, t, status);
      assert items == init + [item];
      OneMoreId(init, item, t, status);
    }
  }

  lemma OneMoreId(items: seq<Item>, item: Item, t: string, status: Status)
    requires forall k :: 0 <= k < |items| ==> items[k].id != item.id
    ensures |IdsIn(items + [item], t, status)| ==
            |IdsIn(items, t, status)| + (if item.taskId == t && item.status == status then 1 else 0)
  {
    IdsInSnoc(items, item, t, status);
    assert item.id !in IdsIn(items, t, status);
  }

  /** With one attempt, a queued item's fate is its handler's answer. */
  lemma SingleAttemptFate(db: Db.Tables, i: string, oracle: Db.Oracle)
    requires i in db.items && db.items[i].taskId in db.tasks
    requires db.items[i].progress.status == Db.ItemQueued && db.items[i].progress.attempts == 0
    ensures var kind := db.tasks[db.items[i].taskId].kind;
            Schedules.FateIn(db, i, Db.Config(oracle, 1)).status ==
            if Answer(oracle, kind, i).Done? then Db.Succeeded else Db.DeadLetter
  {
    var cfg := Db.Config(oracle, 1);
    var kind, p := db.tasks[db.items[i].taskId].kind, db.items[i].progress;
    var q := Db.Attempt(cfg, kind, i, p);
    assert Schedules.Fate(cfg, kind, i, q) == q;
  }

  lemma DrainedItemsHoldTheirAnswers(tasks: seq<Task>, items: seq<Item>, oracle: Db.Oracle, j: nat, k: nat)
    requires Inv(tasks, items, oracle) && j < |tasks| && k < |items|
    requires items[k].taskId == tasks[j].id && Count(items, tasks[j].id, Queued) == 0
    ensures items[k].status == if Answer(oracle, tasks[j].kind, items[k].id).Done? then Succeeded else Failed
  {
    NoneQueued(items, tasks[j].id);
    assert ItemOk(items[k], tasks, oracle);
    var i :| 0 <= i < |tasks| && OwnedBy(items[k], tasks[i], oracle);
    assert i == j;
  }

  /** The items, one by one: fated to succeed in the database exactly if they succeeded in memory. */
  lemma FatesAreMemoryStatuses(tasks: seq<Task>, items: seq<Item>, oracle: Db.Oracle, j: nat,
                               db: Db.Tables, t: Db.TaskId, status: Status, fate: Db.ItemStatus)
    requires Inv(tasks, items, oracle) && j < |tasks| && Count(items, tasks[j].id, Queued) == 0
    requires t in db.tasks && db.tasks[t].kind == tasks[j].kind
    requires forall i :: i in Db.ItemsOf(db, t) ==> db.items[i].progress.status == Db.ItemQueued
                                                    && db.items[i].progress.attempts == 0
    requires Db.ItemsOf(db, t) == IdsOf(items, tasks[j].id)
    requires (status, fate) in {(Succeeded, Db.Succeeded), (Failed, Db.DeadLetter)}
    ensures Schedules.Fated(db, t, Db.Config(oracle, 1), fate) == IdsIn(items, tasks[j].id, status)
  {
    var fated, ids := Schedules.Fated(db, t, Db.Config(oracle, 1), fate), IdsIn(items, tasks[j].id, status);
    forall k | 0 <= k < |items| && items[k].taskId == tasks[j].id
      ensures items[k].id in fated <==> items[k].status == status
    {
      assert items[k].id in Db.ItemsOf(db, t);
      DrainedItemsHoldTheirAnswers(tasks, items, oracle, j, k);
      SingleAttemptFate(db, items[k].id, oracle);
    }
    forall x | x in fated ensures x in ids {
      var k :| 0 <= k < |items| && items[k].taskId == tasks[j].id && items[k].id == x;
    }
  }

  /** With the same items, any draining database schedule ends with the memory task's status and counters. */
  lemma DrainedMemoryTaskMatchesDatabase(tasks: seq<Task>, items: seq<Item>, oracle: Db.Oracle, j: nat,
                                         s: Db.System, actions: seq<Db.Action>, t: Db.TaskId)
    requires Inv(tasks, items, oracle) && j < |tasks|
    requires 0 < tasks[j].total && Count(items, tasks[j].id, Queued) == 0
    requires Db.Inv(s.db, 1) && t in s.db.tasks && s.db.tasks[t].kind == tasks[j].kind
    requires forall i :: i in Db.ItemsOf(s.db, t) ==> s.db.items[i].progress.status == Db.ItemQueued
    requires Db.ItemsOf(s.db, t) == IdsOf(items, tasks[j].id)
    requires Db.Drained(Db.Run(s, actions, Db.Config(oracle, 1)).db, t)
    ensures var db := Db.Run(s, actions, Db.Config(oracle, 1)).db;
            && t in db.tasks
            && db.tasks[t].success == tasks[j].success
            && db.tasks[t].failed == tasks[j].failed
            && db.tasks[t].status == tasks[j].status
  {
    var u := tasks[j].id;
    assert CountsOk(tasks[j], items) && StatusOk(tasks[j], items);
    forall i | i in Db.ItemsOf(s.db, t) ensures s.db.items[i].progress.attempts == 0 {
      assert Db.ItemOk(s.db.items[i], 1);
    }
    CountIsSetSize(items, u, Succeeded);
    CountIsSetSize(items, u, Failed);
    FatesAreMemoryStatuses(tasks, items, oracle, j, s.db, t, Succeeded, Db.Succeeded);
    FatesAreMemoryStatuses(tasks, items, oracle, j, s.db, t, Failed, Db.DeadLetter);
    Schedules.DrainedTaskMeetsItsFate(s, actions, Db.Config(oracle, 1), t);
  }
}
