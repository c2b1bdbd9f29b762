/** The in-memory lists of the customer operations, written in place. */
module OpsStores {
  import opened Basics
  import opened CustomerOps
  import OpsAudit

  lemma MoreStageNeeds(customers: seq<Customer>, i: nat, done: seq<Key>)
    requires i < |customers|
    ensures done + StageNeeds(customers[..i]) + StageNeed(customers[i]) == done + StageNeeds(customers[..i + 1])
  {
    assert customers[..i + 1][..i] == customers[..i];
  }

  class OpsStore {
    var customers: seq<Customer>
    var tasks: seq<Task>
    var stageLogs: seq<Change<string>>
    var taskLogs: seq<Change<nat>>
    var followups: seq<Followup>
    var exceptions: seq<Exception>
    var issued: nat

    function View(): Ops
      reads this
    {
      Ops(customers, tasks, stageLogs, taskLogs, followups, exceptions, issued)
    }

    constructor (customers: seq<Customer>, tasks: seq<Task>, issued: nat)
      ensures View() == Ops(customers, tasks, [], [], [], [], issued)
    {
      this.customers, this.tasks, this.issued := customers, tasks, issued;
      stageLogs, taskLogs, followups, exceptions := [], [], [], [];
    }

    method CreateOpsTask(kind: string, customerId: string, assignee: string, status: string)
      modifies this`tasks, this`taskLogs, this`issued
      ensures View() == CreateTask(old(View()), kind, customerId, assignee, status)
    {
      var found := Find(CustomerIds(customers), customerId);
      var worker := assignee;
      if found.Some? {
        worker := FirstNonEmpty(assignee, customers[found.value].owner);
      }
      var first := FirstNonEmpty(status, "pending");
      var id := issued;
      issued := issued + 1;
      tasks := [Task(id, kind, customerId, worker, first)] + tasks;
      taskLogs := [Change(id, "", first)] + taskLogs;
    }

    method ChangeCustomerStage(i: nat, stage: string)
      requires i < |customers|
      modifies this`customers, this`stageLogs, this`tasks, this`taskLogs, this`issued
      ensures View() == ChangeStage(old(View()), i, stage)
      ensures customers == old(customers)[i := old(customers)[i].(stage := stage)]
      ensures stage == "high_intent" ==> HasOpenTask(tasks, old(customers)[i].id, HIGH_INTENT_TASK)
    {
      OpsAudit.ChangeStageLeads(View(), i, stage);
      var before := customers[i].stage;
      customers := customers[i := customers[i].(stage := stage)];
      stageLogs := [Change(customers[i].id, before, stage)] + stageLogs;
      if stage == "high_intent" && !HasOpenTask(tasks, customers[i].id, HIGH_INTENT_TASK) {
        CreateOpsTask(HIGH_INTENT_TASK, customers[i].id, "", "");
      }
    }

    method ResolveExceptionsByTask(taskId: nat)
      modifies this`exceptions
      ensures exceptions == ResolveByTask(old(exceptions), taskId)
    {
      ghost var was := exceptions;
      var i := 0;
      while i < |exceptions|
        invariant 0 <= i <= |exceptions| == |was|
        invariant forall j :: 0 <= j < i ==> exceptions[j] == ResolvedIfAbout(was[j], taskId)
        invariant forall j :: i <= j < |was| ==> exceptions[j] == was[j]
      {
        if exceptions[i].key.taskId == Some(taskId) && exceptions[i].status != Resolved {
          exceptions := exceptions[i := exceptions[i].(status := Resolved)];
        }
        i := i + 1;
      }
    }

    method SetOpsTaskStatus(k: nat, status: string)
      requires k < |tasks|
      modifies this
      ensures View() == SetTaskStatus(old(View()), k, status)
    {
      var task := tasks[k];
      tasks := tasks[k := task.(status := status)];
      taskLogs := [Change(task.id, task.status, status)] + taskLogs;
      var found := Find(CustomerIds(customers), task.customerId);
      if found.Some? {
        if status == "completed" && task.kind == FIRST_FOLLOW_TASK
           && customers[found.value].stage == "first_follow_pending" {
          ChangeCustomerStage(found.value, "following");
        }
      }
      if status == "completed" {
        ResolveExceptionsByTask(task.id);
      }
    }

    method AssignTask(k: nat, assignee: string)
      requires k < |tasks|
      modifies this`tasks, this`taskLogs
      ensures View() == Reassign(old(View()), k, assignee)
    {
      tasks := tasks[k := tasks[k].(assignee := FirstNonEmpty(assignee, tasks[k].assignee))];
      taskLogs := [Change(tasks[k].id, tasks[k].status, tasks[k].status)] + taskLogs;
    }

    method AddCustomerFollowup(i: nat, stageAfter: string, nextTime: string)
      requires i < |customers|
      modifies this
      ensures View() == AddFollowup(old(View()), i, stageAfter, nextTime)
      ensures var c := old(customers)[i];
              customers == old(customers)[i := c.(stage := if stageAfter == "" then c.stage else stageAfter)]
      ensures nextTime != "" ==> tasks != [] && OpenTask(tasks[0], old(customers)[i].id, REMINDER_TASK)
    {
      OpsAudit.FollowupLeads(View(), i, stageAfter, nextTime);
      var id, before := customers[i].id, customers[i].stage;
      followups := [Followup(id, before, stageAfter)] + followups;
      if stageAfter != "" && stageAfter != before {
        ChangeCustomerStage(i, stageAfter);
      }
      if nextTime != "" {
        CreateOpsTask(REMINDER_TASK, id, "", "");
      }
    }

    method EnsureException(key: Key)
      modifies this`exceptions, this`issued
      ensures View() == Ensure(old(View()), key)
    {
      var i := 0;
      while i < |exceptions|
        invariant 0 <= i <= |exceptions|
        invariant exceptions == old(exceptions) && issued == old(issued)
        invariant forall j :: 0 <= j < i ==> !(exceptions[j].key == key && IsOpen(exceptions[j]))
      {
        if exceptions[i].key == key && IsOpen(exceptions[i]) {
          return;
        }
        i := i + 1;
      }
      exceptions := [Exception(issued, key, Pending)] + exceptions;
      issued := issued + 1;
    }

    /** An overdue task's report, as the next one after those in done. */
    method ReportTask(t: Task, ghost start: Ops, ghost done: seq<Key>)
      requires View() == EnsureAll(start, done)
      modifies this`exceptions, this`issued
      ensures View() == EnsureAll(start, done + TaskNeed(t))
    {
      if t.status == "overdue" {
        EnsureException(Key(TaskOverdue, t.customerId, Some(t.id)));
        assert (done + TaskNeed(t))[..|done|] == done;
      } else {
        assert done + TaskNeed(t) == done;
      }
    }

    method ReportCustomer(c: Customer, ghost start: Ops, ghost done: seq<Key>)
      requires View() == EnsureAll(start, done)
      modifies this`exceptions, this`issued
      ensures View() == EnsureAll(start, done + StageNeed(c))
    {
      assert |StageNeed(c)| == 1 ==> (done + StageNeed(c))[..|done|] == done;
      match c.stage
      case "first_follow_pending" => EnsureException(Key(FirstFollowTimeout, c.id, None));
      case "dormant" => EnsureException(Key(CustomerDormant, c.id, None));
      case _ => assert done + StageNeed(c) == done;
    }

    method RefreshTasks(ghost start: Ops)
      requires View() == start
      modifies this`exceptions, this`issued
      ensures View() == EnsureAll(start, TaskNeeds(tasks))
    {
      var i := 0;
      while i < |tasks|
        invariant 0 <= i <= |tasks|
        invariant View() == EnsureAll(start, TaskNeeds(tasks[..i]))
      {
        ReportTask(tasks[i], start, TaskNeeds(tasks[..i]));
        assert tasks[..i + 1][..i] == tasks[..i];
        i := i + 1;
      }
      assert tasks[..|tasks|] == tasks;
    }

    method RefreshCustomers(ghost start: Ops, ghost done: seq<Key>)
      requires View() == EnsureAll(start, done)
      modifies this`exceptions, this`issued
      ensures View() == EnsureAll(start, done + StageNeeds(customers))
    {
      var i := 0;
      assert done + StageNeeds(customers[..0]) == done;
      while i < |customers|
        invariant 0 <= i <= |customers|
        invariant View() == EnsureAll(start, done + StageNeeds(customers[..i]))
      {
        ReportCustomer(customers[i], start, done + StageNeeds(customers[..i]));
        MoreStageNeeds(customers, i, done);
        i := i + 1;
      }
      assert customers[..|customers|] == customers;
    }

    method RefreshExceptions()
      modifies this`exceptions, this`issued
      ensures View() == Refresh(old(View()))
    {
      RefreshTasks(old(View()));
      RefreshCustomers(old(View()), TaskNeeds(tasks));
    }

    method ActOnTask(k: nat, verb: string, assignee: string) returns (response: Response)
      requires k < |tasks|
      modifies this
      ensures (View(), response) == DoTaskVerb(old(View()), k, verb, assignee)
    {
      if verb == "process" {
        SetOpsTaskStatus(k, "processing");
      } else if verb == "complete" {
        SetOpsTaskStatus(k, "completed");
      } else if verb == "assign" {
        AssignTask(k, assignee);
      } else if verb == "ignore" {
        SetOpsTaskStatus(k, "ignored");
      } else {
        return NotFound;
      }
      return Done;
    }

    method ActOnException(id: nat, verb: string) returns (response: Response)
      modifies this`exceptions
      ensures (View(), response) == Serve(old(View()), ExceptionVerb(id, verb))
    {
      var found := Find(ExceptionIds(exceptions), id);
      if found.None? {
        return NotFound;
      }
      var k := found.value;
      if verb == "process" {
        exceptions := exceptions[k := exceptions[k].(status := Processing)];
      } else if verb == "resolve" {
        exceptions := exceptions[k := exceptions[k].(status := Resolved)];
      } else if verb == "ignore" {
        exceptions := exceptions[k := exceptions[k].(status := Ignored)];
      } else {
        return NotFound;
      }
      return Done;
    }

    /** One request, whichever handler it reaches. */
    method Handle(a: Action) returns (response: Response)
      modifies this
      ensures (View(), response) == Serve(old(View()), a)
    {
      response := Done;
      match a
      case StageRequest(id, stage) =>
        var found := Find(CustomerIds(customers), id);
        if found.None? {
          response := NotFound;
        } else if stage == "" {
          response := BadRequest;
        } else {
          ChangeCustomerStage(found.value, stage);
        }
      case FollowupRequest(id, stageAfter, nextTime) =>
        var found := Find(CustomerIds(customers), id);
        if found.None? {
          response := NotFound;
        } else {
          AddCustomerFollowup(found.value, stageAfter, nextTime);
        }
      case TaskRequest(kind, id, assignee, status) =>
        CreateOpsTask(kind, id, assignee, status);
      case TaskVerb(id, verb, assignee) =>
        var found := Find(TaskIds(tasks), id);
        if found.None? {
          response := NotFound;
        } else {
          response := ActOnTask(found.value, verb, assignee);
        }
      case RefreshRequest =>
        RefreshExceptions();
      case ExceptionVerb(id, verb) =>
        response := ActOnException(id, verb);
    }
  }
}
