/**
  Customer operations in memory mode: lifecycle stages, follow-up tasks, their audit
  logs and the exception list. Lists are newest first; every id comes from one counter.
 */
module CustomerOps {
  import opened Basics

  datatype Customer = Customer(id: string, owner: string, stage: string)

  datatype Task = Task(id: nat, kind: string, customerId: string, assignee: string, status: string)

  /** One audit entry about a subject: a customer's stage or a task's status changed. */
  datatype Change<K> = Change(subject: K, before: string, after: string)

  datatype ExceptionKind = TaskOverdue | FirstFollowTimeout | CustomerDormant

  datatype ExceptionStatus = Pending | Processing | Resolved | Ignored

  /** What an exception is about; only overdue tasks have a task id. */
  datatype Key = Key(kind: ExceptionKind, customerId: string, taskId: Option<nat>)

  datatype Exception = Exception(id: nat, key: Key, status: ExceptionStatus)

  datatype Followup = Followup(customerId: string, stageBefore: string, stageAfter: string)

  datatype Ops = Ops(
    customers: seq<Customer>,
    tasks: seq<Task>,
    stageLogs: seq<Change<string>>,
    taskLogs: seq<Change<nat>>,
    followups: seq<Followup>,
    exceptions: seq<Exception>,
    issued: nat)

  const FIRST_FOLLOW_TASK := "新客户首次跟进"
  const HIGH_INTENT_TASK := "高意向客户回访"
  const REMINDER_TASK := "客户跟进提醒"

  function FirstNonEmpty(x: string, y: string): string {
    if x == "" then y else x
  }

  // ---------------------------------------------------------------- lookups

  /** The first position of an id. */
  function Find<K(==)>(ids: seq<K>, id: K): (r: Option<nat>)
    ensures r.Some? ==> r.value < |ids| && ids[r.value] == id
  {
    if ids == [] then None
    else if ids[0] == id then Some(0)
    else
      var rest := Find(ids[1..], id);
      if rest.Some? then Some(rest.value + 1) else None
  }

  lemma {:induction false} FindAt<K>(ids: seq<K>, k: nat)
    requires k < |ids| && forall i, j :: 0 <= i < j < |ids| ==> ids[i] != ids[j]
    ensures Find(ids, ids[k]) == Some(k)
  {
    if k > 0 {
      assert ids[0] != ids[k];
      FindAt(ids[1..], k - 1);
    }
  }

  function CustomerIds(customers: seq<Customer>): seq<string> {
    seq(|customers|, i requires 0 <= i < |customers| => customers[i].id)
  }

  function TaskIds(tasks: seq<Task>): seq<nat> {
    seq(|tasks|, i requires 0 <= i < |tasks| => tasks[i].id)
  }

  function ExceptionIds(exceptions: seq<Exception>): seq<nat> {
    seq(|exceptions|, i requires 0 <= i < |exceptions| => exceptions[i].id)
  }

  predicate OpenTask(t: Task, customerId: string, kind: string) {
    && t.customerId == customerId && t.kind == kind
    && t.status != "completed" && t.status != "ignored" && t.status != "cancelled"
  }

  predicate HasOpenTask(tasks: seq<Task>, customerId: string, kind: string) {
    exists k :: 0 <= k < |tasks| && OpenTask(tasks[k], customerId, kind)
  }

  predicate IsOpen(e: Exception) {
    e.status != Resolved && e.status != Ignored
  }

  predicate HasOpenException(exceptions: seq<Exception>, key: Key) {
    exists k :: 0 <= k < |exceptions| && exceptions[k].key == key && IsOpen(exceptions[k])
  }

  // ---------------------------------------------------------------- single writes

  function SetStage(s: Ops, i: nat, stage: string): Ops
    requires i < |s.customers|
  {
    s.(customers := s.customers[i := s.customers[i].(stage := stage)],
       stageLogs := [Change(s.customers[i].id, s.customers[i].stage, stage)] + s.stageLogs)
  }

  function SetStatus(s: Ops, k: nat, status: string): Ops
    requires k < |s.tasks|
  {
    s.(tasks := s.tasks[k := s.tasks[k].(status := status)],
       taskLogs := [Change(s.tasks[k].id, s.tasks[k].status, status)] + s.taskLogs)
  }

  function Reassign(s: Ops, k: nat, assignee: string): Ops
    requires k < |s.tasks|
  {
    s.(tasks := s.tasks[k := s.tasks[k].(assignee := FirstNonEmpty(assignee, s.tasks[k].assignee))],
       taskLogs := [Change(s.tasks[k].id, s.tasks[k].status, s.tasks[k].status)] + s.taskLogs)
  }

  function ResolvedIfAbout(e: Exception, taskId: nat): Exception {
    if e.key.taskId == Some(taskId) then e.(status := Resolved) else e
  }

  function ResolveByTask(exceptions: seq<Exception>, taskId: nat): (r: seq<Exception>)
    ensures |r| == |exceptions|
  {
    seq(|exceptions|, i requires 0 <= i < |exceptions| => ResolvedIfAbout(exceptions[i], taskId))
  }

  // ---------------------------------------------------------------- tasks and stages

  function CreateTask(s: Ops, kind: string, customerId: string, assignee: string, status: string): Ops {
    var found := Find(CustomerIds(s.customers), customerId);
    var worker := if found.Some? then FirstNonEmpty(assignee, s.customers[found.value].owner) else assignee;
    var status' := FirstNonEmpty(status, "pending");
    s.(tasks := [Task(s.issued, kind, customerId, worker, status')] + s.tasks,
       taskLogs := [Change(s.issued, "", status')] + s.taskLogs,
       issued := s.issued + 1)
  }

  function ChangeStage(s: Ops, i: nat, stage: string): Ops
    requires i < |s.customers|
  {
    var s1 := SetStage(s, i, stage);
    var id := s.customers[i].id;
    if stage == "high_intent" && !HasOpenTask(s1.tasks, id, HIGH_INTENT_TASK)
    then CreateTask(s1, HIGH_INTENT_TASK, id, "", "")
    else s1
  }

  /** Completing a first follow-up task takes its customer to this state, if the customer still waits for it. */
  function AfterFirstFollow(s: Ops, t: Task): Ops {
    var found := Find(CustomerIds(s.customers), t.customerId);
    if found.Some? && t.kind == FIRST_FOLLOW_TASK && s.customers[found.value].stage == "first_follow_pending"
    then ChangeStage(s, found.value, "following")
    else s
  }

  function SetTaskStatus(s: Ops, k: nat, status: string): Ops
    requires k < |s.tasks|
  {
    var s1 := SetStatus(s, k, status);
    if status != "completed" then s1
    else
      var s2 := AfterFirstFollow(s1, s.tasks[k]);
      s2.(exceptions := ResolveByTask(s2.exceptions, s.tasks[k].id))
  }

  function AddFollowup(s: Ops, i: nat, stageAfter: string, nextTime: string): Ops
    requires i < |s.customers|
  {
    var c := s.customers[i];
    var s1 := s.(followups := [Followup(c.id, c.stage, stageAfter)] + s.followups);
    var s2 := if stageAfter != "" && stageAfter != c.stage then ChangeStage(s1, i, stageAfter) else s1;
    if nextTime != "" then CreateTask(s2, REMINDER_TASK, c.id, "", "") else s2
  }

  // ---------------------------------------------------------------- exceptions

  function Ensure(s: Ops, key: Key): Ops {
    if HasOpenException(s.exceptions, key) then s
    else s.(exceptions := [Exception(s.issued, key, Pending)] + s.exceptions, issued := s.issued + 1)
  }

  function EnsureAll(s: Ops, keys: seq<Key>): Ops {
    if keys == [] then s else Ensure(EnsureAll(s, keys[..|keys| - 1]), keys[|keys| - 1])
  }

  function TaskNeed(t: Task): seq<Key> {
    if t.status == "overdue" then [Key(TaskOverdue, t.customerId, Some(t.id))] else []
  }

  function TaskNeeds(tasks: seq<Task>): seq<Key> {
    if tasks == [] then []
    else TaskNeeds(tasks[..|tasks| - 1]) + TaskNeed(tasks[|tasks| - 1])
  }

  function StageNeed(c: Customer): seq<Key> {
    if c.stage == "first_follow_pending" then [Key(FirstFollowTimeout, c.id, None)]
    else if c.stage == "dormant" then [Key(CustomerDormant, c.id, None)]
    else []
  }

  function StageNeeds(customers: seq<Customer>): seq<Key> {
    if customers == [] then []
    else StageNeeds(customers[..|customers| - 1]) + StageNeed(customers[|customers| - 1])
  }

  function Refresh(s: Ops): Ops {
    EnsureAll(s, TaskNeeds(s.tasks) + StageNeeds(s.customers))
  }

  // ---------------------------------------------------------------- requests

  datatype Action =
    | StageRequest(customerId: string, stage: string)
    | FollowupRequest(customerId: string, stageAfter: string, nextTime: string)
    | TaskRequest(kind: string, customerId: string, assignee: string, status: string)
    | TaskVerb(taskId: nat, verb: string, assignee: string)
    | RefreshRequest
    | ExceptionVerb(exceptionId: nat, verb: string)

  datatype Response = Done | NotFound | BadRequest

  function DoTaskVerb(s: Ops, k: nat, verb: string, assignee: string): (Ops, Response)
    requires k < |s.tasks|
  {
    if verb == "process" then (SetTaskStatus(s, k, "processing"), Done)
    else if verb == "complete" then (SetTaskStatus(s, k, "completed"), Done)
    else if verb == "assign" then (Reassign(s, k, assignee), Done)
    else if verb == "ignore" then (SetTaskStatus(s, k, "ignored"), Done)
    else (s, NotFound)
  }

  function VerbStatus(verb: string): Option<ExceptionStatus> {
    if verb == "process" then Some(Processing)
    else if verb == "resolve" then Some(Resolved)
    else if verb == "ignore" then Some(Ignored)
    else None
  }

  function DoExceptionVerb(s: Ops, k: nat, verb: string): (Ops, Response)
    requires k < |s.exceptions|
  {
    var status := VerbStatus(verb);
    if status.None? then (s, NotFound)
    else (s.(exceptions := s.exceptions[k := s.exceptions[k].(status := status.value)]), Done)
  }

  function Serve(s: Ops, a: Action): (Ops, Response) {
    match a
    case StageRequest(id, stage) =>
      var found := Find(CustomerIds(s.customers), id);
      if found.None? then (s, NotFound)
      else if stage == "" then (s, BadRequest)
      else (ChangeStage(s, found.value, stage), Done)
    case FollowupRequest(id, stageAfter, nextTime) =>
      var found := Find(CustomerIds(s.customers), id);
      if found.None? then (s, NotFound) else (AddFollowup(s, found.value, stageAfter, nextTime), Done)
    case TaskRequest(kind, id, assignee, status) => (CreateTask(s, kind, id, assignee, status), Done)
    case TaskVerb(id, verb, assignee) =>
      var found := Find(TaskIds(s.tasks), id);
      if found.None? then (s, NotFound) else DoTaskVerb(s, found.value, verb, assignee)
    case RefreshRequest => (Refresh(s), Done)
    case ExceptionVerb(id, verb) =>
      var found := Find(ExceptionIds(s.exceptions), id);
      if found.None? then (s, NotFound) else DoExceptionVerb(s, found.value, verb)
  }

  function Next(s: Ops, a: Action): Ops {
    Serve(s, a).0
  }

  function Run(s: Ops, actions: seq<Action>): Ops {
    if actions == [] then s else Next(Run(s, actions[..|actions| - 1]), actions[|actions| - 1])
  }

  // ---------------------------------------------------------------- the ids in use

  predicate DistinctCustomers(s: Ops) {
    forall i, j :: 0 <= i < j < |s.customers| ==> s.customers[i].id != s.customers[j].id
  }

  predicate IssuedTasks(s: Ops) {
    && (forall i, j :: 0 <= i < j < |s.tasks| ==> s.tasks[i].id != s.tasks[j].id)
    && (forall i :: 0 <= i < |s.tasks| ==> s.tasks[i].id < s.issued)
    && (forall i :: 0 <= i < |s.taskLogs| ==> s.taskLogs[i].subject < s.issued)
  }

  predicate IssuedExceptions(s: Ops) {
    && (forall i, j :: 0 <= i < j < |s.exceptions| ==> s.exceptions[i].id != s.exceptions[j].id)
    && (forall i :: 0 <= i < |s.exceptions| ==> s.exceptions[i].id < s.issued)
  }
}
