/**
  That tasks do get drained. A diligent worker fetches whenever an item of the task is
  due, processes its whole list without rolling back, and waits for delays to pass.
 */
module TaskQueueDraining {
  import opened Basics
  import opened TaskQueue
  import opened TaskQueueSchedules
  import opened TaskQueueDelays

  /** One fetch, and the clock at which its items are processed. */
  datatype Round = Round(ids: seq<ItemId>, now: int)

  /** Who works, on how many items at a time, and how long a refused item has to wait. */
  datatype Worker = Worker(id: nat, batchSize: nat, delay: int)

  function Processes(w: Worker, n: nat, now: int): seq<Action> {
    if n == 0 then [] else [Process(w.id, now, w.delay, false)] + Processes(w, n - 1, now)
  }

  function RoundActions(w: Worker, r: Round): seq<Action> {
    [Fetch(w.id, w.batchSize, r.ids, r.now)] + Processes(w, |r.ids|, r.now)
  }

  function Schedule(w: Worker, rounds: seq<Round>): seq<Action> {
    if rounds == [] then [] else RoundActions(w, rounds[0]) + Schedule(w, rounds[1..])
  }

  /** How many of these items belong to the task. */
  function Ours(db: Tables, ids: seq<ItemId>, t: TaskId): nat
    requires forall k :: 0 <= k < |ids| ==> ids[k] in db.items
  {
    if ids == [] then 0 else (if db.items[ids[0]].taskId == t then 1 else 0) + Ours(db, ids[1..], t)
  }

  lemma {:induction false} SomeIsOurs(db: Tables, ids: seq<ItemId>, t: TaskId)
    requires forall k :: 0 <= k < |ids| ==> ids[k] in db.items
    ensures Ours(db, ids, t) > 0 <==> exists k :: 0 <= k < |ids| && db.items[ids[k]].taskId == t
  {
    if ids != [] {
      SomeIsOurs(db, ids[1..], t);
      assert forall k :: 1 <= k < |ids| ==> ids[k] == ids[1..][k - 1];
    }
  }

  lemma {:induction false} OursStay(db: Tables, db': Tables, ids: seq<ItemId>, t: TaskId)
    requires forall k :: 0 <= k < |ids| ==>
               ids[k] in db.items && ids[k] in db'.items && db'.items[ids[k]].taskId == db.items[ids[k]].taskId
    ensures Ours(db', ids, t) == Ours(db, ids, t)
  {
    if ids != [] {
      OursStay(db, db', ids[1..], t);
    }
  }

  // ---------------------------------------------------------------- one round

  predicate AllClaimable(db: Tables, ids: seq<ItemId>) {
    Distinct(ids) && forall k :: 0 <= k < |ids| ==> Claimable(db, ids[k])
  }

  /** Committing the head of a claimable list leaves the rest claimable. */
  lemma RestStaysClaimable(db: Tables, ids: seq<ItemId>, cfg: Config, now: int, delay: int, t: TaskId)
    requires ids != [] && AllClaimable(db, ids)
    ensures var db' := Commit(db, ids[0], cfg, now, delay);
            AllClaimable(db', ids[1..]) && Ours(db', ids[1..], t) == Ours(db, ids[1..], t)
  {
    var db' := Commit(db, ids[0], cfg, now, delay);
    forall k | 0 <= k < |ids[1..]|
      ensures Claimable(db', ids[1..][k]) && db'.items[ids[1..][k]] == db.items[ids[1..][k]]
    {
      assert ids[1..][k] == ids[k + 1] && ids[k + 1] != ids[0];
    }
    OursStay(db, db', ids[1..], t);
  }

  /** Processing a claimable list commits every item of it. */
  lemma {:induction false} ProcessesCommitAll(s: System, w: Worker, now: int, cfg: Config, t: TaskId)
    requires AllClaimable(s.db, Pending(s, w.id))
    ensures var actions := Processes(w, |Pending(s, w.id)|, now);
            && Pending(Run(s, actions, cfg), w.id) == []
            && CommittedSteps(s, actions, cfg, t) == Ours(s.db, Pending(s, w.id), t)
    decreases |Pending(s, w.id)|
  {
    var ids := Pending(s, w.id);
    if ids != [] {
      var next := Next(s, Process(w.id, now, w.delay, false), cfg);
      RestStaysClaimable(s.db, ids, cfg, now, w.delay, t);
      assert Pending(next, w.id) == ids[1..];
      ProcessesCommitAll(next, w, now, cfg, t);
      assert Processes(w, |ids|, now)[1..] == Processes(w, |ids[1..]|, now);
    }
  }

  /** A fetch that finds the worker idle, with an item of the task among those it returns. */
  predicate CanFetch(s: System, w: Worker, r: Round, t: TaskId) {
    && Pending(s, w.id) == [] && FetchResult(s.db, r.ids, w.batchSize, r.now)
    && exists k :: 0 <= k < |r.ids| && s.db.items[r.ids[k]].taskId == t
  }

  lemma RoundCommits(s: System, w: Worker, r: Round, cfg: Config, t: TaskId)
    requires CanFetch(s, w, r, t)
    ensures Pending(Run(s, RoundActions(w, r), cfg), w.id) == []
    ensures CommittedSteps(s, RoundActions(w, r), cfg, t) == Ours(s.db, r.ids, t)
  {
    var fetched := Next(s, Fetch(w.id, w.batchSize, r.ids, r.now), cfg);
    assert RoundActions(w, r)[1..] == Processes(w, |r.ids|, r.now);
    assert Pending(fetched, w.id) == r.ids;
    ProcessesCommitAll(fetched, w, r.now, cfg, t);
  }

  /** A round spends at least one attempt of the task, and keeps everything that matters. */
  lemma RoundSpends(s: System, w: Worker, r: Round, cfg: Config, t: TaskId)
    requires Inv(s.db, cfg.maxAttempts) && t in s.db.tasks && CanFetch(s, w, r, t)
    ensures var s' := Run(s, RoundActions(w, r), cfg);
            && Inv(s'.db, cfg.maxAttempts) && t in s'.db.tasks && Pending(s', w.id) == []
            && s'.db.tasks[t].total == s.db.tasks[t].total
            && |Spent(s'.db, t)| > |Spent(s.db, t)|
  {
    var actions := RoundActions(w, r);
    RoundCommits(s, w, r, cfg, t);
    SomeIsOurs(s.db, r.ids, t);
    RunKeepsInvariant(s, actions, cfg);
    RunKeepsFates(s, actions, cfg, t);
    RunSpendsOneAttemptPerCommit(s, actions, cfg, t);
    assert TaskOk(s.db, t) && TaskOk(Run(s, actions, cfg).db, t);
  }

  // ---------------------------------------------------------------- many rounds

  /** Each round fetches something of the task, under a clock that never runs backwards. */
  predicate Diligent(s: System, w: Worker, clock: int, rounds: seq<Round>, cfg: Config, t: TaskId)
    decreases |rounds|
  {
    rounds != [] ==>
      && clock <= rounds[0].now && CanFetch(s, w, rounds[0], t)
      && Diligent(Run(s, RoundActions(w, rounds[0]), cfg), w, rounds[0].now, rounds[1..], cfg, t)
  }

  lemma {:induction false} RunConcat(s: System, one: seq<Action>, two: seq<Action>, cfg: Config)
    ensures Run(s, one + two, cfg) == Run(Run(s, one, cfg), two, cfg)
    decreases |one|
  {
    if one == [] {
      assert one + two == two;
    } else {
      assert (one + two)[1..] == one[1..] + two;
      RunConcat(Next(s, one[0], cfg), one[1..], two, cfg);
    }
  }

  lemma ScheduleStep(s: System, w: Worker, rounds: seq<Round>, cfg: Config)
    requires rounds != []
    ensures Run(s, Schedule(w, rounds), cfg) ==
            Run(Run(s, RoundActions(w, rounds[0]), cfg), Schedule(w, rounds[1..]), cfg)
  {
    RunConcat(s, RoundActions(w, rounds[0]), Schedule(w, rounds[1..]), cfg);
  }

  lemma {:induction false} RoundsSpend(s: System, w: Worker, clock: int, rounds: seq<Round>, cfg: Config, t: TaskId)
    requires Inv(s.db, cfg.maxAttempts) && t in s.db.tasks && Diligent(s, w, clock, rounds, cfg, t)
    ensures var s' := Run(s, Schedule(w, rounds), cfg);
            && Inv(s'.db, cfg.maxAttempts) && t in s'.db.tasks
            && s'.db.tasks[t].total == s.db.tasks[t].total
            && |Spent(s'.db, t)| >= |Spent(s.db, t)| + |rounds|
    decreases |rounds|
  {
    if rounds != [] {
      RoundSpends(s, w, rounds[0], cfg, t);
      ScheduleStep(s, w, rounds, cfg);
      RoundsSpend(Run(s, RoundActions(w, rounds[0]), cfg), w, rounds[0].now, rounds[1..], cfg, t);
    }
  }

  /** What is left of the task's budget of attempts. */
  ghost function Budget(db: Tables, t: TaskId, maxAttempts: nat): int
    requires t in db.tasks
  {
    db.tasks[t].total * maxAttempts - |Spent(db, t)|
  }

  /** A diligent worker has at most as many rounds as the task has attempts left, and then the task is drained. */
  lemma DiligentWithinBudget(s: System, w: Worker, clock: int, rounds: seq<Round>, cfg: Config, t: TaskId)
    requires Inv(s.db, cfg.maxAttempts) && t in s.db.tasks && Diligent(s, w, clock, rounds, cfg, t)
    ensures |rounds| <= Budget(s.db, t, cfg.maxAttempts)
    ensures |rounds| == Budget(s.db, t, cfg.maxAttempts) ==> Drained(Run(s, Schedule(w, rounds), cfg).db, t)
  {
    var s' := Run(s, Schedule(w, rounds), cfg);
    RoundsSpend(s, w, clock, rounds, cfg, t);
    SpentWithinBudget(s'.db, t, cfg.maxAttempts);
    if |rounds| == Budget(s.db, t, cfg.maxAttempts) {
      ExhaustedBudgetDrains(s'.db, t, cfg.maxAttempts);
    }
  }

  lemma UndrainedIsActive(db: Tables, t: TaskId) returns (i: ItemId)
    requires t in db.tasks && TaskOk(db, t) && !Drained(db, t)
    ensures i in db.items && db.items[i].taskId == t && db.items[i].progress.status == ItemQueued
    ensures db.tasks[t].status in {TaskQueued, TaskRunning}
  {
    i :| i in InStatus(db, t, ItemQueued);
  }

  lemma OneFetch(db: Tables, i: ItemId, batchSize: nat, now: int)
    requires Claimable(db, i) && db.items[i].nextAttemptAt <= now && batchSize > 0
    requires db.tasks[db.items[i].taskId].status in {TaskQueued, TaskRunning}
    ensures FetchResult(db, [i], batchSize, now)
  {
  }

  /** Until the task is drained an idle worker that waits long enough has something of it to fetch. */
  lemma UndrainedCanBeFetched(s: System, w: Worker, clock: int, cfg: Config, t: TaskId) returns (r: Round)
    requires Inv(s.db, cfg.maxAttempts) && t in s.db.tasks && !Drained(s.db, t)
    requires Pending(s, w.id) == [] && w.batchSize > 0
    ensures clock <= r.now && CanFetch(s, w, r, t)
  {
    var i := UndrainedIsActive(s.db, t);
    var due := s.db.items[i].nextAttemptAt;
    r := Round([i], if clock < due then due else clock);
    OneFetch(s.db, i, w.batchSize, r.now);
    assert s.db.items[r.ids[0]].taskId == t;
  }

  /** So a single diligent worker drains the task, within its remaining budget. */
  lemma {:induction false} DiligentWorkerDrains(s: System, w: Worker, clock: int, cfg: Config, t: TaskId)
    returns (rounds: seq<Round>)
    requires Inv(s.db, cfg.maxAttempts) && t in s.db.tasks
    requires Pending(s, w.id) == [] && w.batchSize > 0
    ensures Diligent(s, w, clock, rounds, cfg, t)
    ensures |rounds| <= Budget(s.db, t, cfg.maxAttempts)
    ensures Drained(Run(s, Schedule(w, rounds), cfg).db, t)
    decreases Budget(s.db, t, cfg.maxAttempts)
  {
    rounds := [];
    SpentWithinBudget(s.db, t, cfg.maxAttempts);
    if !Drained(s.db, t) {
      var first := UndrainedCanBeFetched(s, w, clock, cfg, t);
      var s' := Run(s, RoundActions(w, first), cfg);
      RoundSpends(s, w, first, cfg, t);
      SpentWithinBudget(s'.db, t, cfg.maxAttempts);
      var rest := DiligentWorkerDrains(s', w, first.now, cfg, t);
      rounds := [first] + rest;
      assert rounds[1..] == rest;
      ScheduleStep(s, w, rounds, cfg);
    }
  }

  // ---------------------------------------------------------------- any policy, all tasks

  predicate Due(db: Tables, i: ItemId, now: int) {
    && Claimable(db, i) && db.items[i].nextAttemptAt <= now
    && db.tasks[db.items[i].taskId].status in {TaskQueued, TaskRunning}
  }

  /** Which due items a fetch returns: the source takes those of the oldest tasks, by item id. */
  type Policy = (Tables, int) -> seq<ItemId>

  /** A policy returns a batch whenever anything is due. */
  ghost predicate Sensible(policy: Policy, batchSize: nat) {
    forall db, now ::
      && FetchResult(db, policy(db, now), batchSize, now)
      && (policy(db, now) == [] ==> forall i :: !Due(db, i, now))
  }

  /** Each round fetches what the policy says, and it says something. */
  predicate Follows(s: System, w: Worker, clock: int, rounds: seq<Round>, cfg: Config, policy: Policy)
    decreases |rounds|
  {
    rounds != [] ==>
      && clock <= rounds[0].now && Pending(s, w.id) == []
      && rounds[0].ids == policy(s.db, rounds[0].now) != []
      && Follows(Run(s, RoundActions(w, rounds[0]), cfg), w, rounds[0].now, rounds[1..], cfg, policy)
  }

  /** The attempts of all items made so far. */
  ghost function AllSpent(db: Tables): set<(ItemId, nat)> {
    set i, k: nat | i in db.items && 1 <= k <= db.items[i].progress.attempts :: (i, k)
  }

  lemma CommitAddsAttempt(db: Tables, i: ItemId, cfg: Config, now: int, delay: int)
    requires Claimable(db, i)
    ensures |AllSpent(Commit(db, i, cfg, now, delay))| == |AllSpent(db)| + 1
  {
    var db', n := Commit(db, i, cfg, now, delay), db.items[i].progress.attempts;
    forall j, k: nat | j in db.items
      ensures (j, k) in AllSpent(db') <==> (j, k) in AllSpent(db) || (j == i && k == n + 1)
    {
    }
    assert AllSpent(db') == AllSpent(db) + {(i, n + 1)};
    assert (i, n + 1) !in AllSpent(db);
  }

  lemma {:induction false} ProcessesAddAttempts(s: System, w: Worker, now: int, cfg: Config)
    requires AllClaimable(s.db, Pending(s, w.id))
    ensures var s' := Run(s, Processes(w, |Pending(s, w.id)|, now), cfg);
            && s'.db.items.Keys == s.db.items.Keys
            && |AllSpent(s'.db)| == |AllSpent(s.db)| + |Pending(s, w.id)|
    decreases |Pending(s, w.id)|
  {
    var ids := Pending(s, w.id);
    if ids != [] {
      var next := Next(s, Process(w.id, now, w.delay, false), cfg);
      RestStaysClaimable(s.db, ids, cfg, now, w.delay, "");
      CommitAddsAttempt(s.db, ids[0], cfg, now, w.delay);
      assert Pending(next, w.id) == ids[1..];
      ProcessesAddAttempts(next, w, now, cfg);
      assert Processes(w, |ids|, now)[1..] == Processes(w, |ids[1..]|, now);
    }
  }

  /** What is left of all items' attempts. */
  ghost function TotalBudget(db: Tables, maxAttempts: nat): int {
    |db.items| * maxAttempts - |AllSpent(db)|
  }

  lemma TotalBudgetIsNatural(db: Tables, maxAttempts: nat)
    requires Inv(db, maxAttempts)
    ensures TotalBudget(db, maxAttempts) >= 0
  {
    forall x | x in AllSpent(db) ensures x in Grid(db.items.Keys, maxAttempts) {
      assert ItemOk(db.items[x.0], maxAttempts);
    }
    SubsetSize(AllSpent(db), Grid(db.items.Keys, maxAttempts));
    GridSize(db.items.Keys, maxAttempts);
  }

  lemma RoundShrinksBudget(s: System, w: Worker, r: Round, cfg: Config)
    requires Inv(s.db, cfg.maxAttempts) && Pending(s, w.id) == []
    requires r.ids != [] && FetchResult(s.db, r.ids, w.batchSize, r.now)
    ensures var s' := Run(s, RoundActions(w, r), cfg);
            && Inv(s'.db, cfg.maxAttempts) && Pending(s', w.id) == []
            && 0 <= TotalBudget(s'.db, cfg.maxAttempts) == TotalBudget(s.db, cfg.maxAttempts) - |r.ids|
  {
    var fetched := Next(s, Fetch(w.id, w.batchSize, r.ids, r.now), cfg);
    assert RoundActions(w, r)[1..] == Processes(w, |r.ids|, r.now);
    assert Pending(fetched, w.id) == r.ids;
    ProcessesAddAttempts(fetched, w, r.now, cfg);
    ProcessesCommitAll(fetched, w, r.now, cfg, "");
    RunKeepsInvariant(s, RoundActions(w, r), cfg);
    TotalBudgetIsNatural(Run(s, RoundActions(w, r), cfg).db, cfg.maxAttempts);
  }

  ghost predicate AllDrained(db: Tables) {
    forall t :: t in db.tasks ==> Drained(db, t)
  }

  /** No sensible policy can have more rounds than all items together have attempts left. */
  lemma {:induction false} PolicyWithinBudget(s: System, w: Worker, clock: int, rounds: seq<Round>, cfg: Config,
                                              policy: Policy)
    requires Inv(s.db, cfg.maxAttempts) && Sensible(policy, w.batchSize)
    requires Follows(s, w, clock, rounds, cfg, policy)
    ensures |rounds| <= TotalBudget(s.db, cfg.maxAttempts)
    decreases |rounds|
  {
    TotalBudgetIsNatural(s.db, cfg.maxAttempts);
    if rounds != [] {
      RoundShrinksBudget(s, w, rounds[0], cfg);
      PolicyWithinBudget(Run(s, RoundActions(w, rounds[0]), cfg), w, rounds[0].now, rounds[1..], cfg, policy);
    }
  }

  /** While anything is left undrained, some time is late enough for the policy to return a batch. */
  lemma PolicyGoesOn(s: System, w: Worker, clock: int, cfg: Config, policy: Policy) returns (r: Round)
    requires Inv(s.db, cfg.maxAttempts) && Sensible(policy, w.batchSize) && !AllDrained(s.db)
    ensures clock <= r.now && r.ids == policy(s.db, r.now) != []
  {
    var t :| t in s.db.tasks && !Drained(s.db, t);
    assert TaskOk(s.db, t);
    var i := UndrainedIsActive(s.db, t);
    var due := s.db.items[i].nextAttemptAt;
    var now := if clock < due then due else clock;
    assert Due(s.db, i, now);
    r := Round(policy(s.db, now), now);
  }

  /** So a single worker under any sensible policy drains every task, whatever the order of its fetches. */
  lemma {:induction false} PolicyDrains(s: System, w: Worker, clock: int, cfg: Config, policy: Policy)
    returns (rounds: seq<Round>)
    requires Inv(s.db, cfg.maxAttempts) && Sensible(policy, w.batchSize) && Pending(s, w.id) == []
    ensures Follows(s, w, clock, rounds, cfg, policy)
    ensures AllDrained(Run(s, Schedule(w, rounds), cfg).db)
    decreases TotalBudget(s.db, cfg.maxAttempts)
  {
    rounds := [];
    TotalBudgetIsNatural(s.db, cfg.maxAttempts);
    if !AllDrained(s.db) {
      var first := PolicyGoesOn(s, w, clock, cfg, policy);
      var s' := Run(s, RoundActions(w, first), cfg);
      RoundShrinksBudget(s, w, first, cfg);
      var rest := PolicyDrains(s', w, first.now, cfg, policy);
      rounds := [first] + rest;
      assert rounds[1..] == rest;
      ScheduleStep(s, w, rounds, cfg);
    }
  }
}
