/** The audit logs tell the whole story: replayed oldest first they lead to every current stage and status. */
module OpsAudit {
  import opened Basics
  import opened CustomerOps

  /** Follows the entries about one subject; None once an entry does not start where the previous one stopped. */
  function Replay<K(==)>(logs: seq<Change<K>>, subject: K, start: string): Option<string> {
    if logs == [] then Some(start)
    else
      var before := Replay(logs[1..], subject, start);
      if logs[0].subject != subject then before
      else if before == Some(logs[0].before) then Some(logs[0].after)
      else None
  }

  lemma {:induction false} UnmentionedReplaysToStart<K>(logs: seq<Change<K>>, subject: K, start: string)
    requires forall i :: 0 <= i < |logs| ==> logs[i].subject != subject
    ensures Replay(logs, subject, start) == Some(start)
  {
    if logs != [] {
      UnmentionedReplaysToStart(logs[1..], subject, start);
    }
  }

  lemma ReplayOneMore<K>(log: Change<K>, logs: seq<Change<K>>, subject: K, start: string)
    ensures Replay([log] + logs, subject, start) ==
            if log.subject != subject then Replay(logs, subject, start)
            else if Replay(logs, subject, start) == Some(log.before) then Some(log.after)
            else None
  {
    assert ([log] + logs)[1..] == logs;
  }

  /** A task's status before its first entry: the stored one at the start, "" for a task created since. */
  function StartingStatus(tasks: seq<Task>, id: nat): string {
    var found := Find(TaskIds(tasks), id);
    if found.Some? then tasks[found.value].status else ""
  }

  // ---------------------------------------------------------------- the invariants

  predicate StagesAudited(start: Ops, s: Ops) {
    && |s.customers| == |start.customers|
    && forall i :: 0 <= i < |s.customers| ==>
         && s.customers[i].id == start.customers[i].id
         && Replay(s.stageLogs, s.customers[i].id, start.customers[i].stage) == Some(s.customers[i].stage)
  }

  predicate StatusesAudited(start: Ops, s: Ops) {
    forall k :: 0 <= k < |s.tasks| ==>
      Replay(s.taskLogs, s.tasks[k].id, StartingStatus(start.tasks, s.tasks[k].id)) == Some(s.tasks[k].status)
  }

  /** No task is lost: the starting ones are the oldest. */
  predicate TasksKept(start: Ops, s: Ops) {
    && |s.tasks| >= |start.tasks|
    && forall k :: 0 <= k < |start.tasks| ==> s.tasks[|s.tasks| - |start.tasks| + k].id == start.tasks[k].id
  }

  predicate StartsBelow(start: Ops, s: Ops) {
    forall k :: 0 <= k < |start.tasks| ==> start.tasks[k].id < s.issued
  }

  ghost predicate Audited(start: Ops, s: Ops) {
    && DistinctCustomers(s) && StagesAudited(start, s)
    && IssuedTasks(s) && StatusesAudited(start, s) && TasksKept(start, s) && StartsBelow(start, s)
  }

  /** What a step that writes neither customers nor tasks leaves alone. */
  predicate SameTrail(s: Ops, s': Ops) {
    && s'.customers == s.customers && s'.tasks == s.tasks
    && s'.stageLogs == s.stageLogs && s'.taskLogs == s.taskLogs
    && s.issued <= s'.issued
  }

  lemma SameTrailKeepsAudit(start: Ops, s: Ops, s': Ops)
    requires Audited(start, s) && SameTrail(s, s')
    ensures Audited(start, s')
  {
  }

  // ---------------------------------------------------------------- single writes

  lemma SetStageKeepsStages(start: Ops, s: Ops, i: nat, stage: string)
    requires i < |s.customers| && DistinctCustomers(s) && StagesAudited(start, s)
    ensures DistinctCustomers(SetStage(s, i, stage)) && StagesAudited(start, SetStage(s, i, stage))
  {
    var s' := SetStage(s, i, stage);
    var log := Change(s.customers[i].id, s.customers[i].stage, stage);
    forall j | 0 <= j < |s'.customers|
      ensures s'.customers[j].id == start.customers[j].id
      ensures Replay(s'.stageLogs, s'.customers[j].id, start.customers[j].stage) == Some(s'.customers[j].stage)
    {
      ReplayOneMore(log, s.stageLogs, s.customers[j].id, start.customers[j].stage);
      assert s.customers[j].id == log.subject ==> j == i;
    }
  }

  lemma SetStageKeepsAudit(start: Ops, s: Ops, i: nat, stage: string)
    requires i < |s.customers| && Audited(start, s)
    ensures Audited(start, SetStage(s, i, stage))
  {
    SetStageKeepsStages(start, s, i, stage);
  }

  /** One task gets a status and the entry that says so. */
  predicate LoggedTaskWrite(s: Ops, s': Ops, k: nat) {
    && k < |s.tasks| && |s'.tasks| == |s.tasks|
    && (forall j :: 0 <= j < |s.tasks| && j != k ==> s'.tasks[j] == s.tasks[j])
    && s'.tasks[k].id == s.tasks[k].id
    && s'.taskLogs == [Change(s.tasks[k].id, s.tasks[k].status, s'.tasks[k].status)] + s.taskLogs
    && s'.customers == s.customers && s'.stageLogs == s.stageLogs && s'.issued == s.issued
  }

  lemma TaskWriteKeepsStatuses(start: Ops, s: Ops, s': Ops, k: nat)
    requires IssuedTasks(s) && StatusesAudited(start, s) && LoggedTaskWrite(s, s', k)
    ensures IssuedTasks(s') && StatusesAudited(start, s')
  {
    var log := Change(s.tasks[k].id, s.tasks[k].status, s'.tasks[k].status);
    forall j | 0 <= j < |s'.tasks|
      ensures s'.tasks[j].id == s.tasks[j].id
      ensures Replay(s'.taskLogs, s'.tasks[j].id, StartingStatus(start.tasks, s'.tasks[j].id))
              == Some(s'.tasks[j].status)
    {
      ReplayOneMore(log, s.taskLogs, s.tasks[j].id, StartingStatus(start.tasks, s.tasks[j].id));
      assert s.tasks[j].id == log.subject ==> j == k;
    }
  }

  lemma TaskWriteKeepsAudit(start: Ops, s: Ops, s': Ops, k: nat)
    requires Audited(start, s) && LoggedTaskWrite(s, s', k)
    ensures Audited(start, s')
  {
    TaskWriteKeepsStatuses(start, s, s', k);
    assert TasksKept(start, s') by {
      forall j | 0 <= j < |s.tasks| ensures s'.tasks[j].id == s.tasks[j].id {
      }
    }
  }

  lemma CreateTaskKeepsStatuses(start: Ops, s: Ops, kind: string, customerId: string, assignee: string, status: string)
    requires IssuedTasks(s) && StatusesAudited(start, s) && StartsBelow(start, s)
    ensures IssuedTasks(CreateTask(s, kind, customerId, assignee, status))
    ensures StatusesAudited(start, CreateTask(s, kind, customerId, assignee, status))
  {
    var s' := CreateTask(s, kind, customerId, assignee, status);
    var log := s'.taskLogs[0];
    forall j | 0 <= j < |s'.tasks|
      ensures Replay(s'.taskLogs, s'.tasks[j].id, StartingStatus(start.tasks, s'.tasks[j].id))
              == Some(s'.tasks[j].status)
    {
      var id := s'.tasks[j].id;
      ReplayOneMore(log, s.taskLogs, id, StartingStatus(start.tasks, id));
      if j == 0 {
        assert Find(TaskIds(start.tasks), id).None?;
        UnmentionedReplaysToStart(s.taskLogs, id, "");
      }
    }
  }

  lemma CreateTaskKeepsAudit(start: Ops, s: Ops, kind: string, customerId: string, assignee: string, status: string)
    requires Audited(start, s)
    ensures Audited(start, CreateTask(s, kind, customerId, assignee, status))
  {
    CreateTaskKeepsStatuses(start, s, kind, customerId, assignee, status);
  }

  // ---------------------------------------------------------------- cascades

  lemma ChangeStageKeepsAudit(start: Ops, s: Ops, i: nat, stage: string)
    requires i < |s.customers| && Audited(start, s)
    ensures Audited(start, ChangeStage(s, i, stage))
  {
    SetStageKeepsAudit(start, s, i, stage);
    CreateTaskKeepsAudit(start, SetStage(s, i, stage), HIGH_INTENT_TASK, s.customers[i].id, "", "");
  }

  lemma SetTaskStatusKeepsAudit(start: Ops, s: Ops, k: nat, status: string)
    requires k < |s.tasks| && Audited(start, s)
    ensures Audited(start, SetTaskStatus(s, k, status))
  {
    var s1 := SetStatus(s, k, status);
    TaskWriteKeepsAudit(start, s, s1, k);
    var found := Find(CustomerIds(s1.customers), s.tasks[k].customerId);
    if found.Some? {
      ChangeStageKeepsAudit(start, s1, found.value, "following");
    }
    var s2 := AfterFirstFollow(s1, s.tasks[k]);
    SameTrailKeepsAudit(start, s2, s2.(exceptions := ResolveByTask(s2.exceptions, s.tasks[k].id)));
  }

  lemma AddFollowupKeepsAudit(start: Ops, s: Ops, i: nat, stageAfter: string, nextTime: string)
    requires i < |s.customers| && Audited(start, s)
    ensures Audited(start, AddFollowup(s, i, stageAfter, nextTime))
  {
    var c := s.customers[i];
    var s1 := s.(followups := [Followup(c.id, c.stage, stageAfter)] + s.followups);
    SameTrailKeepsAudit(start, s, s1);
    ChangeStageKeepsAudit(start, s1, i, stageAfter);
    var s2 := if stageAfter != "" && stageAfter != c.stage then ChangeStage(s1, i, stageAfter) else s1;
    CreateTaskKeepsAudit(start, s2, REMINDER_TASK, c.id, "", "");
  }

  lemma {:induction false} EnsureAllKeepsTrail(s: Ops, keys: seq<Key>)
    ensures SameTrail(s, EnsureAll(s, keys))
  {
    if keys != [] {
      EnsureAllKeepsTrail(s, keys[..|keys| - 1]);
    }
  }

  lemma DoTaskVerbKeepsAudit(start: Ops, s: Ops, k: nat, verb: string, assignee: string)
    requires k < |s.tasks| && Audited(start, s)
    ensures Audited(start, DoTaskVerb(s, k, verb, assignee).0)
  {
    if verb == "process" {
      SetTaskStatusKeepsAudit(start, s, k, "processing");
    } else if verb == "complete" {
      SetTaskStatusKeepsAudit(start, s, k, "completed");
    } else if verb == "assign" {
      TaskWriteKeepsAudit(start, s, Reassign(s, k, assignee), k);
    } else if verb == "ignore" {
      SetTaskStatusKeepsAudit(start, s, k, "ignored");
    }
  }

  lemma NextKeepsAudit(start: Ops, s: Ops, a: Action)
    requires Audited(start, s)
    ensures Audited(start, Next(s, a))
  {
    match a
    case StageRequest(id, stage) =>
      var found := Find(CustomerIds(s.customers), id);
      if found.Some? {
        ChangeStageKeepsAudit(start, s, found.value, stage);
      }
    case FollowupRequest(id, stageAfter, nextTime) =>
      var found := Find(CustomerIds(s.customers), id);
      if found.Some? {
        AddFollowupKeepsAudit(start, s, found.value, stageAfter, nextTime);
      }
    case TaskRequest(kind, id, assignee, status) => CreateTaskKeepsAudit(start, s, kind, id, assignee, status);
    case TaskVerb(id, verb, assignee) =>
      var found := Find(TaskIds(s.tasks), id);
      if found.Some? {
        DoTaskVerbKeepsAudit(start, s, found.value, verb, assignee);
      }
    case RefreshRequest =>
      EnsureAllKeepsTrail(s, TaskNeeds(s.tasks) + StageNeeds(s.customers));
      SameTrailKeepsAudit(start, s, Refresh(s));
    case ExceptionVerb(id, verb) =>
      SameTrailKeepsAudit(start, s, Next(s, a));
  }

  // ---------------------------------------------------------------- every run

  lemma {:induction false} RunKeepsAudit(start: Ops, s: Ops, actions: seq<Action>)
    requires Audited(start, s)
    ensures Audited(start, Run(s, actions))
  {
    if actions != [] {
      RunKeepsAudit(start, s, actions[..|actions| - 1]);
      NextKeepsAudit(start, Run(s, actions[..|actions| - 1]), actions[|actions| - 1]);
    }
  }

  /**
    From any state with empty logs, through any requests and all their cascades: each
    customer's entries form an unbroken chain from its first stage to its current one, and
    each task's from its first status ("" if it was created on the way) to its current one.
   */
  lemma AuditReplay(start: Ops, actions: seq<Action>)
    requires DistinctCustomers(start) && IssuedTasks(start)
    requires start.stageLogs == [] && start.taskLogs == []
    ensures StagesAudited(start, Run(start, actions))
    ensures StatusesAudited(start, Run(start, actions))
    ensures TasksKept(start, Run(start, actions))
  {
    forall k | 0 <= k < |start.tasks| ensures StartingStatus(start.tasks, start.tasks[k].id) == start.tasks[k].status {
      FindAt(TaskIds(start.tasks), k);
    }
    RunKeepsAudit(start, start, actions);
  }

  // ---------------------------------------------------------------- where the cascades lead

  /** A stage change moves one customer; one of high intent has an open visit task then, a new one only if needed. */
  lemma ChangeStageLeads(s: Ops, i: nat, stage: string)
    requires i < |s.customers|
    ensures var s', id := ChangeStage(s, i, stage), s.customers[i].id;
            && s'.customers == s.customers[i := s.customers[i].(stage := stage)]
            && (stage == "high_intent" ==> HasOpenTask(s'.tasks, id, HIGH_INTENT_TASK))
            && (s'.tasks == s.tasks <==> stage != "high_intent" || HasOpenTask(s.tasks, id, HIGH_INTENT_TASK))
            && s'.tasks[|s'.tasks| - |s.tasks|..] == s.tasks && |s'.tasks| <= |s.tasks| + 1
  {
    var s' := ChangeStage(s, i, stage);
    if s'.tasks != s.tasks {
      assert OpenTask(s'.tasks[0], s.customers[i].id, HIGH_INTENT_TASK);
    }
  }

  /** A follow-up moves its customer exactly if it names a stage, and its record says from where. */
  lemma FollowupLeads(s: Ops, i: nat, stageAfter: string, nextTime: string)
    requires i < |s.customers|
    ensures var s', c := AddFollowup(s, i, stageAfter, nextTime), s.customers[i];
            && s'.customers == s.customers[i := c.(stage := if stageAfter == "" then c.stage else stageAfter)]
            && s'.followups == [Followup(c.id, c.stage, stageAfter)] + s.followups
            && (stageAfter in {"", c.stage} <==> s'.stageLogs == s.stageLogs)
            && (nextTime != "" ==> OpenTask(s'.tasks[0], c.id, REMINDER_TASK))
  {
    var c := s.customers[i];
    var s1 := s.(followups := [Followup(c.id, c.stage, stageAfter)] + s.followups);
    ChangeStageLeads(s1, i, stageAfter);
    assert s.customers[i := c] == s.customers;
  }

  /** A task's status moves a customer's stage exactly if it completes the first follow-up still waited for. */
  lemma CompletionMovesStageIff(s: Ops, k: nat, status: string, i: nat)
    requires k < |s.tasks| && i < |s.customers| && DistinctCustomers(s)
    ensures var t, c, s' := s.tasks[k], s.customers[i], SetTaskStatus(s, k, status);
            && |s'.customers| == |s.customers|
            && s'.customers[i] == c.(stage :=
                 if status == "completed" && t.kind == FIRST_FOLLOW_TASK
                    && t.customerId == c.id && c.stage == "first_follow_pending"
                 then "following" else c.stage)
  {
    FindAt(CustomerIds(s.customers), i);
    var s1, t := SetStatus(s, k, status), s.tasks[k];
    var found := Find(CustomerIds(s.customers), t.customerId);
    if found.Some? {
      ChangeStageLeads(s1, found.value, "following");
    }
  }
}
