/** What each request to the customer operations does, field by field, and when it is refused. */
module OpsEffects {
  import opened Basics
  import opened CustomerOps

  predicate KnownCustomer(s: Ops, id: string) {
    exists i :: 0 <= i < |s.customers| && s.customers[i].id == id
  }

  predicate KnownTask(s: Ops, id: nat) {
    exists k :: 0 <= k < |s.tasks| && s.tasks[k].id == id
  }

  predicate KnownException(s: Ops, id: nat) {
    exists k :: 0 <= k < |s.exceptions| && s.exceptions[k].id == id
  }

  /** The customer has a visit task that is neither completed nor ignored nor cancelled. */
  predicate HasOpenVisit(s: Ops, id: string) {
    exists k :: 0 <= k < |s.tasks| && s.tasks[k].customerId == id && s.tasks[k].kind == "高意向客户回访"
                && s.tasks[k].status !in {"completed", "ignored", "cancelled"}
  }

  lemma KnownIffFound(s: Ops, id: string)
    requires DistinctCustomers(s)
    ensures KnownCustomer(s, id) <==> Find(CustomerIds(s.customers), id).Some?
    ensures forall i :: 0 <= i < |s.customers| && s.customers[i].id == id ==>
              Find(CustomerIds(s.customers), id) == Some(i)
  {
    forall i | 0 <= i < |s.customers| && s.customers[i].id == id
      ensures Find(CustomerIds(s.customers), id) == Some(i)
    {
      FindAt(CustomerIds(s.customers), i);
    }
  }

  lemma KnownTaskIffFound(s: Ops, id: nat)
    requires IssuedTasks(s)
    ensures KnownTask(s, id) <==> Find(TaskIds(s.tasks), id).Some?
    ensures forall k :: 0 <= k < |s.tasks| && s.tasks[k].id == id ==> Find(TaskIds(s.tasks), id) == Some(k)
  {
    forall k | 0 <= k < |s.tasks| && s.tasks[k].id == id ensures Find(TaskIds(s.tasks), id) == Some(k) {
      FindAt(TaskIds(s.tasks), k);
    }
  }

  lemma KnownExceptionIffFound(s: Ops, id: nat)
    requires IssuedExceptions(s)
    ensures KnownException(s, id) <==> Find(ExceptionIds(s.exceptions), id).Some?
    ensures forall k :: 0 <= k < |s.exceptions| && s.exceptions[k].id == id ==>
              Find(ExceptionIds(s.exceptions), id) == Some(k)
  {
    forall k | 0 <= k < |s.exceptions| && s.exceptions[k].id == id
      ensures Find(ExceptionIds(s.exceptions), id) == Some(k)
    {
      FindAt(ExceptionIds(s.exceptions), k);
    }
  }

  // ---------------------------------------------------------------- new tasks

  /** One task in front, with its entry; the worker is the one named or else the customer's guide. */
  predicate AddsTask(s: Ops, s': Ops, kind: string, customerId: string, assignee: string, status: string) {
    && |s'.tasks| == |s.tasks| + 1 && s'.tasks[1..] == s.tasks
    && s'.tasks[0].id == s.issued && s'.tasks[0].kind == kind && s'.tasks[0].customerId == customerId
    && s'.tasks[0].status == status
    && (assignee != "" ==> s'.tasks[0].assignee == assignee)
    && (assignee == "" ==>
          forall i :: 0 <= i < |s.customers| && s.customers[i].id == customerId ==>
            s'.tasks[0].assignee == s.customers[i].owner)
    && (assignee == "" && !KnownCustomer(s, customerId) ==> s'.tasks[0].assignee == "")
    && s'.taskLogs == [Change(s.issued, "", status)] + s.taskLogs
    && s'.issued == s.issued + 1
  }

  /** Everything but tasks, their log and the ids. */
  predicate SameButTasks(s: Ops, s': Ops) {
    && s'.customers == s.customers && s'.stageLogs == s.stageLogs
    && s'.followups == s.followups && s'.exceptions == s.exceptions
  }

  lemma TaskRequestEffect(s: Ops, kind: string, customerId: string, assignee: string, status: string)
    requires DistinctCustomers(s)
    ensures var (s', response) := Serve(s, TaskRequest(kind, customerId, assignee, status));
            && response == Done && SameButTasks(s, s')
            && AddsTask(s, s', kind, customerId, assignee, if status != "" then status else "pending")
  {
    KnownIffFound(s, customerId);
  }

  // ---------------------------------------------------------------- stages

  /** One customer takes a stage, with the entry that says so. */
  predicate TakesStage(s: Ops, s': Ops, id: string, stage: string) {
    && |s'.customers| == |s.customers|
    && (forall i :: 0 <= i < |s.customers| ==>
          && s'.customers[i].id == s.customers[i].id && s'.customers[i].owner == s.customers[i].owner
          && s'.customers[i].stage == (if s.customers[i].id == id then stage else s.customers[i].stage))
    && |s'.stageLogs| == |s.stageLogs| + 1 && s'.stageLogs[1..] == s.stageLogs
    && s'.stageLogs[0].subject == id && s'.stageLogs[0].after == stage
    && (forall i :: 0 <= i < |s.customers| && s.customers[i].id == id ==>
          s'.stageLogs[0].before == s.customers[i].stage)
  }

  predicate SameTasks(s: Ops, s': Ops) {
    s'.tasks == s.tasks && s'.taskLogs == s.taskLogs && s'.issued == s.issued
  }

  /** A visit task comes with high intent, unless one is open. */
  predicate VisitsIfNeeded(s: Ops, s': Ops, id: string, stage: string) {
    if stage == "high_intent" && !HasOpenVisit(s, id) then AddsTask(s, s', "高意向客户回访", id, "", "pending")
    else SameTasks(s, s')
  }

  lemma ChangeStageEffect(s: Ops, i: nat, stage: string)
    requires DistinctCustomers(s) && i < |s.customers|
    ensures var s', id := ChangeStage(s, i, stage), s.customers[i].id;
            && TakesStage(s, s', id, stage) && VisitsIfNeeded(s, s', id, stage)
            && s'.followups == s.followups && s'.exceptions == s.exceptions
  {
    var id, s1 := s.customers[i].id, SetStage(s, i, stage);
    assert HasOpenTask(s1.tasks, id, HIGH_INTENT_TASK) <==> HasOpenVisit(s, id) by {
      if HasOpenVisit(s, id) {
        var k :| 0 <= k < |s.tasks| && s.tasks[k].customerId == id && s.tasks[k].kind == "高意向客户回访"
                 && s.tasks[k].status !in {"completed", "ignored", "cancelled"};
        assert OpenTask(s1.tasks[k], id, HIGH_INTENT_TASK);
      }
    }
    KnownIffFound(s1, id);
    assert s1.customers[i].owner == s.customers[i].owner && s1.customers[i].id == id;
  }

  lemma StageRequestEffect(s: Ops, id: string, stage: string)
    requires DistinctCustomers(s)
    ensures var (s', response) := Serve(s, StageRequest(id, stage));
            && response == (if !KnownCustomer(s, id) then NotFound else if stage == "" then BadRequest else Done)
            && (response != Done ==> s' == s)
            && (response == Done ==>
                  && TakesStage(s, s', id, stage) && VisitsIfNeeded(s, s', id, stage)
                  && s'.followups == s.followups && s'.exceptions == s.exceptions)
  {
    KnownIffFound(s, id);
    var found := Find(CustomerIds(s.customers), id);
    if found.Some? {
      ChangeStageEffect(s, found.value, stage);
    }
  }

  // ---------------------------------------------------------------- follow-ups

  /** The record in front says where the customer was and what was asked for. */
  predicate Records(s: Ops, s': Ops, id: string, stageAfter: string) {
    && |s'.followups| == |s.followups| + 1 && s'.followups[1..] == s.followups
    && s'.followups[0].customerId == id && s'.followups[0].stageAfter == stageAfter
    && (forall i :: 0 <= i < |s.customers| && s.customers[i].id == id ==>
          s'.followups[0].stageBefore == s.customers[i].stage)
  }

  /** The customer is at this stage already. */
  predicate IsAt(s: Ops, id: string, stage: string) {
    exists i :: 0 <= i < |s.customers| && s.customers[i].id == id && s.customers[i].stage == stage
  }

  predicate SameStages(s: Ops, s': Ops) {
    s'.customers == s.customers && s'.stageLogs == s.stageLogs
  }

  /** A reminder comes with a next time, after whatever the stage change has brought. */
  predicate Reminds(moved: Ops, s': Ops, id: string, nextTime: string) {
    if nextTime != "" then AddsTask(moved, s', "客户跟进提醒", id, "", "pending") else SameTasks(moved, s')
  }

  lemma FollowupStageEffect(s: Ops, i: nat, stageAfter: string) returns (moved: Ops)
    requires DistinctCustomers(s) && i < |s.customers|
    ensures var id := s.customers[i].id;
            && moved == (if stageAfter != "" && stageAfter != s.customers[i].stage then ChangeStage(s, i, stageAfter)
                         else s)
            && (if stageAfter == "" || IsAt(s, id, stageAfter) then SameStages(s, moved) && SameTasks(s, moved)
                else TakesStage(s, moved, id, stageAfter) && VisitsIfNeeded(s, moved, id, stageAfter))
            && moved.followups == s.followups && moved.exceptions == s.exceptions
            && DistinctCustomers(moved)
  {
    ChangeStageEffect(s, i, stageAfter);
    var id := s.customers[i].id;
    assert IsAt(s, id, stageAfter) <==> s.customers[i].stage == stageAfter;
    moved := if stageAfter != "" && stageAfter != s.customers[i].stage then ChangeStage(s, i, stageAfter) else s;
  }

  /** The follow-up of a stored customer: the state after its stage change, and the one after its reminder. */
  lemma FollowupRequestEffect(s: Ops, id: string, stageAfter: string, nextTime: string) returns (moved: Ops)
    requires DistinctCustomers(s)
    ensures var (s', response) := Serve(s, FollowupRequest(id, stageAfter, nextTime));
            && response == (if KnownCustomer(s, id) then Done else NotFound)
            && (response != Done ==> s' == s)
            && (response == Done ==>
                  && Records(s, s', id, stageAfter)
                  && (if stageAfter == "" || IsAt(s, id, stageAfter) then SameStages(s, moved) && SameTasks(s, moved)
                      else TakesStage(s, moved, id, stageAfter) && VisitsIfNeeded(s, moved, id, stageAfter))
                  && SameStages(moved, s') && Reminds(moved, s', id, nextTime)
                  && s'.exceptions == s.exceptions)
  {
    moved := s;
    KnownIffFound(s, id);
    var found := Find(CustomerIds(s.customers), id);
    if found.Some? {
      var c := s.customers[found.value];
      var recorded := s.(followups := [Followup(c.id, c.stage, stageAfter)] + s.followups);
      moved := FollowupStageEffect(recorded, found.value, stageAfter);
      KnownIffFound(moved, id);
    }
  }

  // ---------------------------------------------------------------- task verbs

  /** The status a verb writes; assign keeps the one there is. */
  function StatusBy(verb: string, status: string): string {
    match verb
    case "process" => "processing"
    case "complete" => "completed"
    case "ignore" => "ignored"
    case _ => status
  }

  /** The task's new status and worker, with the entry that says so; no other task. */
  predicate MovesTask(s: Ops, s': Ops, id: nat, verb: string, assignee: string) {
    && |s'.tasks| == |s.tasks|
    && (forall k :: 0 <= k < |s.tasks| ==>
          && s'.tasks[k].id == s.tasks[k].id && s'.tasks[k].kind == s.tasks[k].kind
          && s'.tasks[k].customerId == s.tasks[k].customerId
          && s'.tasks[k].status ==
             (if s.tasks[k].id == id then StatusBy(verb, s.tasks[k].status) else s.tasks[k].status)
          && s'.tasks[k].assignee ==
             (if s.tasks[k].id == id && verb == "assign" && assignee != "" then assignee else s.tasks[k].assignee))
    && |s'.taskLogs| == |s.taskLogs| + 1 && s'.taskLogs[1..] == s.taskLogs && s'.taskLogs[0].subject == id
    && (forall k :: 0 <= k < |s.tasks| && s.tasks[k].id == id ==>
          s'.taskLogs[0].before == s.tasks[k].status && s'.taskLogs[0].after == s'.tasks[k].status)
    && s'.issued == s.issued && s'.followups == s.followups
  }

  lemma SetTaskStatusMoves(s: Ops, k: nat, verb: string, assignee: string, status: string)
    requires DistinctCustomers(s) && IssuedTasks(s) && k < |s.tasks|
    requires verb in {"process", "complete", "ignore"} && status == StatusBy(verb, s.tasks[k].status)
    ensures MovesTask(s, SetTaskStatus(s, k, status), s.tasks[k].id, verb, assignee)
  {
    var s1 := SetStatus(s, k, status);
    assert MovesTask(s, s1, s.tasks[k].id, verb, assignee);
    var found := Find(CustomerIds(s1.customers), s.tasks[k].customerId);
    if found.Some? {
      ChangeStageEffect(s1, found.value, "following");
    }
  }

  lemma AssignMoves(s: Ops, k: nat, assignee: string)
    requires IssuedTasks(s) && k < |s.tasks|
    ensures MovesTask(s, Reassign(s, k, assignee), s.tasks[k].id, "assign", assignee)
    ensures var s' := Reassign(s, k, assignee);
            s'.customers == s.customers && s'.stageLogs == s.stageLogs && s'.exceptions == s.exceptions
  {
  }

  lemma TaskVerbEffect(s: Ops, id: nat, verb: string, assignee: string)
    requires DistinctCustomers(s) && IssuedTasks(s)
    ensures var (s', response) := Serve(s, TaskVerb(id, verb, assignee));
            && response == (if KnownTask(s, id) && verb in {"process", "complete", "assign", "ignore"} then Done
                            else NotFound)
            && (response != Done ==> s' == s)
            && (response == Done ==> MovesTask(s, s', id, verb, assignee))
            && (verb != "complete" ==>
                  s'.customers == s.customers && s'.stageLogs == s.stageLogs && s'.exceptions == s.exceptions)
  {
    KnownTaskIffFound(s, id);
    var found := Find(TaskIds(s.tasks), id);
    if found.Some? {
      if verb == "assign" {
        AssignMoves(s, found.value, assignee);
      } else if verb in {"process", "complete", "ignore"} {
        SetTaskStatusMoves(s, found.value, verb, assignee, StatusBy(verb, s.tasks[found.value].status));
      }
    }
  }

  /** The customers and their log after a completion. */
  lemma CompletionLogsStage(s: Ops, k: nat)
    requires DistinctCustomers(s) && k < |s.tasks|
    ensures var s', t := SetTaskStatus(s, k, "completed"), s.tasks[k];
            if t.kind == "新客户首次跟进" && IsAt(s, t.customerId, "first_follow_pending")
            then TakesStage(s, s', t.customerId, "following")
            else SameStages(s, s')
  {
    var t, s1 := s.tasks[k], SetStatus(s, k, "completed");
    KnownIffFound(s1, t.customerId);
    var found := Find(CustomerIds(s1.customers), t.customerId);
    if found.Some? {
      ChangeStageEffect(s1, found.value, "following");
    }
  }

  // ---------------------------------------------------------------- exception verbs

  lemma ExceptionVerbEffect(s: Ops, id: nat, verb: string)
    requires IssuedExceptions(s)
    ensures var (s', response) := Serve(s, ExceptionVerb(id, verb));
            && response == (if KnownException(s, id) && verb in {"process", "resolve", "ignore"} then Done
                            else NotFound)
            && (response != Done ==> s' == s)
            && s'.(exceptions := s.exceptions) == s && |s'.exceptions| == |s.exceptions|
            && forall k :: 0 <= k < |s.exceptions| ==>
                 && s'.exceptions[k].id == s.exceptions[k].id && s'.exceptions[k].key == s.exceptions[k].key
                 && s'.exceptions[k].status ==
                    if s.exceptions[k].id != id then s.exceptions[k].status
                    else if verb == "process" then Processing
                    else if verb == "resolve" then Resolved
                    else if verb == "ignore" then Ignored
                    else s.exceptions[k].status
  {
    KnownExceptionIffFound(s, id);
  }

  /** An exception is open until it is resolved or ignored. */
  lemma OpenMeaning(e: Exception)
    ensures IsOpen(e) <==> e.status == Pending || e.status == Processing
  {
  }
}
