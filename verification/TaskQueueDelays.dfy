/**
  When the retry delay holds. Fetching looks at an item's due time and claiming
  does not, so what a claim may assume depends on what happened in between.
 */
module TaskQueueDelays {
  import opened Basics
  import opened TaskQueue
  import opened TaskQueueSchedules

  /** Worker w is about to claim an item whose retry delay has not expired. */
  predicate ClaimsEarly(s: System, w: nat, now: int) {
    && Pending(s, w) != []
    && Claimable(s.db, Pending(s, w)[0])
    && now < s.db.items[Pending(s, w)[0]].nextAttemptAt
  }

  // ---------------------------------------------------------------- one claim

  /** The due time that the last transaction on an item in this run asked for. */
  function LastDue(s: System, actions: seq<Action>, cfg: Config, i: ItemId): Option<int>
    decreases |actions|
  {
    if actions == [] then None
    else
      var later := LastDue(Next(s, actions[0], cfg), actions[1..], cfg, i);
      if later.Some? then later
      else if CommitsItem(s, actions[0], i) then Some(actions[0].now + actions[0].retryDelay)
      else None
  }

  /** What one action does to a stored item. */
  lemma NextMovesItem(s: System, a: Action, cfg: Config, i: ItemId)
    requires i in s.db.items
    ensures i in Next(s, a, cfg).db.items
    ensures var before, after := s.db.items[i], Next(s, a, cfg).db.items[i];
            if !CommitsItem(s, a, i) then after == before
            else before.progress.status == ItemQueued
                 && (after.progress.status == ItemQueued ==> after.nextAttemptAt == a.now + a.retryDelay)
  {
    if a.Enqueue? && CanEnqueue(s.db, a.taskId, a.targets, a.ids) {
      EnqueueAddsFreshRows(s.db, a.taskId, a.targets, a.ids, a.now);
    }
  }

  lemma {:induction false} QueuedItemIsDueAsAsked(s: System, actions: seq<Action>, cfg: Config, i: ItemId)
    requires i in s.db.items
    ensures i in Run(s, actions, cfg).db.items
    ensures var item := Run(s, actions, cfg).db.items[i];
            item.progress.status == ItemQueued ==>
              && s.db.items[i].progress.status == ItemQueued
              && item.nextAttemptAt == (if LastDue(s, actions, cfg, i).Some? then LastDue(s, actions, cfg, i).value
                                        else s.db.items[i].nextAttemptAt)
    decreases |actions|
  {
    if actions != [] {
      NextMovesItem(s, actions[0], cfg, i);
      QueuedItemIsDueAsAsked(Next(s, actions[0], cfg), actions[1..], cfg, i);
    }
  }

  /**
    A worker that comes to claim an item of its fetched list does so early exactly if the
    last transaction on the item since the fetch asked for a time that is still to come.
   */
  lemma EarlyClaimIff(s: System, w: nat, batchSize: nat, ids: seq<ItemId>, fetchedAt: int,
                      actions: seq<Action>, cfg: Config, now: int)
    requires Pending(s, w) == [] && FetchResult(s.db, ids, batchSize, fetchedAt) && fetchedAt <= now
    requires var later := Run(Next(s, Fetch(w, batchSize, ids, fetchedAt), cfg), actions, cfg);
             Pending(later, w) != [] && Pending(later, w)[0] in ids && Claimable(later.db, Pending(later, w)[0])
    ensures var fetched := Next(s, Fetch(w, batchSize, ids, fetchedAt), cfg);
            var later := Run(fetched, actions, cfg);
            var due := LastDue(fetched, actions, cfg, Pending(later, w)[0]);
            ClaimsEarly(later, w, now) <==> due.Some? && now < due.value
  {
    var fetched := Next(s, Fetch(w, batchSize, ids, fetchedAt), cfg);
    QueuedItemIsDueAsAsked(fetched, actions, cfg, Pending(Run(fetched, actions, cfg), w)[0]);
  }

  // ---------------------------------------------------------------- one worker

  /** The clock never runs backwards. */
  predicate Clocked(start: int, actions: seq<Action>)
    decreases |actions|
  {
    actions == [] || (start <= actions[0].now && Clocked(actions[0].now, actions[1..]))
  }

  function LastClock(start: int, actions: seq<Action>): int {
    if actions == [] then start else actions[|actions| - 1].now
  }

  /** Only workers 0 to n - 1 take part. */
  predicate Workers(actions: seq<Action>, n: nat) {
    forall k :: 0 <= k < |actions| ==>
      (actions[k].Fetch? ==> actions[k].worker < n) && (actions[k].Process? ==> actions[k].worker < n)
  }

  /** What worker 0 still has to process is stored, fetched once, and due. */
  predicate ListIsDue(s: System, now: int) {
    && Distinct(Pending(s, 0))
    && forall k :: 0 <= k < |Pending(s, 0)| ==>
         Pending(s, 0)[k] in s.db.items && s.db.items[Pending(s, 0)[k]].nextAttemptAt <= now
  }

  lemma NextKeepsListDue(s: System, a: Action, cfg: Config, now: int)
    requires ListIsDue(s, now) && now <= a.now
    requires a.Fetch? || a.Process? ==> a.worker == 0
    ensures ListIsDue(Next(s, a, cfg), a.now)
  {
    match a
    case Enqueue(t, targets, ids, at) =>
      if CanEnqueue(s.db, t, targets, ids) {
        EnqueueAddsFreshRows(s.db, t, targets, ids, at);
      }
    case Fetch(_, _, _, _) =>
    case Process(_, at, delay, rolledBack) =>
      var list := Pending(s, 0);
      if list != [] {
        var rest := list[1..];
        assert Pending(Next(s, a, cfg), 0) == rest;
        assert forall k :: 0 <= k < |rest| ==> rest[k] == list[k + 1] && rest[k] != list[0];
      }
  }

  lemma {:induction false} OneWorkerListStaysDue(s: System, actions: seq<Action>, cfg: Config, start: int)
    requires ListIsDue(s, start) && Clocked(start, actions) && Workers(actions, 1)
    ensures ListIsDue(Run(s, actions, cfg), LastClock(start, actions))
    decreases |actions|
  {
    if actions != [] {
      NextKeepsListDue(s, actions[0], cfg, start);
      assert forall k :: 0 <= k < |actions[1..]| ==> actions[1..][k] == actions[k + 1];
      OneWorkerListStaysDue(Next(s, actions[0], cfg), actions[1..], cfg, actions[0].now);
    }
  }

  /** A worker alone is never early, whatever the delays. */
  lemma OneWorkerIsNeverEarly(s: System, actions: seq<Action>, cfg: Config, start: int, now: int)
    requires Pending(s, 0) == [] && Clocked(start, actions) && Workers(actions, 1)
    requires LastClock(start, actions) <= now
    ensures !ClaimsEarly(Run(s, actions, cfg), 0, now)
  {
    OneWorkerListStaysDue(s, actions, cfg, start);
  }

  // ---------------------------------------------------------------- any number of workers

  predicate Delayed(actions: seq<Action>, delay: int) {
    forall k :: 0 <= k < |actions| && actions[k].Process? ==> actions[k].retryDelay == delay
  }

  /** A run that waits `delay` before each retry, from empty tables. */
  predicate Plays(actions: seq<Action>, n: nat, delay: int, now: int) {
    && Workers(actions, n) && Clocked(0, actions) && Delayed(actions, delay)
    && LastClock(0, actions) <= now
  }

  const EMPTY := System(Tables(map[], map[]), map[])

  /** No run of n workers ever claims an item before it is due. */
  ghost predicate DelayIsKept(cfg: Config, n: nat, delay: int) {
    forall actions: seq<Action>, w: nat, now: int ::
      Plays(actions, n, delay, now) && w < n ==> !ClaimsEarly(Run(EMPTY, actions, cfg), w, now)
  }

  /** Some item may have to be tried again. */
  ghost predicate Retries(cfg: Config) {
    cfg.maxAttempts >= 2 && exists i: ItemId :: cfg.oracle(i, 1).Refused?
  }

  /** Every queued item is due; and unless there is a delay to wait for, none was tried yet. */
  predicate AllDue(db: Tables, delay: int, now: int) {
    && (forall t :: t in db.tasks ==> db.tasks[t].kind == BATCH_CUSTOMER_TAGS)
    && forall i :: i in db.items && db.items[i].progress.status == ItemQueued ==>
         && db.items[i].nextAttemptAt <= now
         && (delay > 0 ==> db.items[i].progress.attempts == 0)
  }

  lemma CommitKeepsAllDue(db: Tables, i: ItemId, cfg: Config, delay: int, now: int)
    requires Claimable(db, i) && AllDue(db, delay, now) && (delay <= 0 || !Retries(cfg))
    ensures AllDue(Commit(db, i, cfg, now, delay), delay, now)
  {
    var db' := Commit(db, i, cfg, now, delay);
    assert delay > 0 ==> db'.items[i].progress.status != ItemQueued;
  }

  lemma NextKeepsAllDue(s: System, a: Action, cfg: Config, delay: int, now: int)
    requires AllDue(s.db, delay, now) && now <= a.now && (delay <= 0 || !Retries(cfg))
    requires a.Process? ==> a.retryDelay == delay
    ensures AllDue(Next(s, a, cfg).db, delay, a.now)
  {
    match a
    case Enqueue(t, targets, ids, at) =>
      if CanEnqueue(s.db, t, targets, ids) {
        EnqueueAddsFreshRows(s.db, t, targets, ids, at);
      }
    case Fetch(_, _, _, _) =>
    case Process(w, at, _, rolledBack) =>
      if Pending(s, w) != [] && !rolledBack && Claimable(s.db, Pending(s, w)[0]) {
        CommitKeepsAllDue(s.db, Pending(s, w)[0], cfg, delay, at);
      }
  }

  lemma {:induction false} RunKeepsAllDue(s: System, actions: seq<Action>, cfg: Config, delay: int, start: int)
    requires AllDue(s.db, delay, start) && Clocked(start, actions) && Delayed(actions, delay)
    requires delay <= 0 || !Retries(cfg)
    ensures AllDue(Run(s, actions, cfg).db, delay, LastClock(start, actions))
    decreases |actions|
  {
    if actions != [] {
      NextKeepsAllDue(s, actions[0], cfg, delay, start);
      assert forall k :: 0 <= k < |actions[1..]| ==> actions[1..][k] == actions[k + 1];
      RunKeepsAllDue(Next(s, actions[0], cfg), actions[1..], cfg, delay, actions[0].now);
    }
  }

  /** Two workers fetch the same item; the first puts it back, and the second is about to claim it at once. */
  function StaleRun(i: ItemId, delay: int): seq<Action> {
    [Enqueue("t", ["c"], [i], 0), Fetch(0, 1, [i], 0), Fetch(1, 1, [i], 0), Process(0, 0, delay, false)]
  }

  lemma RunOfFour(s: System, a: Action, b: Action, c: Action, d: Action, cfg: Config)
    ensures Run(s, [a, b, c, d], cfg) == Next(Next(Next(Next(s, a, cfg), b, cfg), c, cfg), d, cfg)
  {
    var s1 := Next(s, a, cfg);
    var s2 := Next(s1, b, cfg);
    var s3 := Next(s2, c, cfg);
    calc {
      Run(s, [a, b, c, d], cfg);
      { assert [a, b, c, d][1..] == [b, c, d]; }
      Run(s1, [b, c, d], cfg);
      { assert [b, c, d][1..] == [c, d]; }
      Run(s2, [c, d], cfg);
      { assert [c, d][1..] == [d]; }
      Run(s3, [d], cfg);
      { assert [d][1..] == []; }
      Next(s3, d, cfg);
    }
  }

  lemma EnqueuedOne(i: ItemId, cfg: Config)
    ensures var s := Next(EMPTY, Enqueue("t", ["c"], [i], 0), cfg);
            && s.lists == map[]
            && s.db.items == map[i := NewItem("t", "c", 0)]
            && s.db.tasks == map["t" := Task(BATCH_CUSTOMER_TAGS, TaskQueued, 1, 0, 0, None, None)]
  {
    assert NewItems("t", ["c"], [i], 0, 1) == NewItems("t", ["c"], [i], 0, 0)[[i][0] := NewItem("t", ["c"][0], 0)];
  }

  lemma StaleWorkerRetriesEarly(i: ItemId, cfg: Config, delay: int)
    requires cfg.maxAttempts >= 2 && delay > 0 && cfg.oracle(i, 1).Refused?
    ensures Plays(StaleRun(i, delay), 2, delay, 0) && ClaimsEarly(Run(EMPTY, StaleRun(i, delay), cfg), 1, 0)
  {
    var steps := StaleRun(i, delay);
    var s1 := Next(EMPTY, steps[0], cfg);
    EnqueuedOne(i, cfg);
    var s3 := Next(Next(s1, steps[1], cfg), steps[2], cfg);
    assert s3 == System(s1.db, map[0 := [i], 1 := [i]]);
    RunOfFour(EMPTY, steps[0], steps[1], steps[2], steps[3], cfg);
    ClockedAtOnce(0, steps);
  }

  lemma {:induction false} ClockedAtOnce(start: int, actions: seq<Action>)
    requires forall k :: 0 <= k < |actions| ==> actions[k].now == start
    ensures Clocked(start, actions)
    decreases |actions|
  {
    if actions != [] {
      ClockedAtOnce(start, actions[1..]);
    }
  }

  /** The delay is kept exactly if one worker is all there is, there is no delay, or no item is ever retried. */
  lemma DelayIsKeptIff(cfg: Config, n: nat, delay: int)
    ensures DelayIsKept(cfg, n, delay) <==> n <= 1 || delay <= 0 || !Retries(cfg)
  {
    if n <= 1 || delay <= 0 || !Retries(cfg) {
      forall actions: seq<Action>, w: nat, now: int | Plays(actions, n, delay, now) && w < n
        ensures !ClaimsEarly(Run(EMPTY, actions, cfg), w, now)
      {
        if n == 1 {
          OneWorkerIsNeverEarly(EMPTY, actions, cfg, 0, now);
        } else {
          RunKeepsAllDue(EMPTY, actions, cfg, delay, 0);
        }
      }
    } else {
      var i: ItemId :| cfg.oracle(i, 1).Refused?;
      StaleWorkerRetriesEarly(i, cfg, delay);
      assert Workers(StaleRun(i, delay), n);
      assert Plays(StaleRun(i, delay), n, delay, 0);
    }
  }
}
