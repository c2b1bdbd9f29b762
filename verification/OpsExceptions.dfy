/** The exception list: what a refresh adds, and what becomes of an exception over a run. */
module OpsExceptions {
  import opened Basics
  import opened CustomerOps

  /** The situations the list has to report. */
  predicate Needed(s: Ops, key: Key) {
    match key.kind
    case TaskOverdue =>
      exists k :: 0 <= k < |s.tasks| && s.tasks[k].status == "overdue" && key.taskId == Some(s.tasks[k].id)
                  && key.customerId == s.tasks[k].customerId
    case FirstFollowTimeout =>
      key.taskId.None?
      && exists i :: 0 <= i < |s.customers| && s.customers[i].id == key.customerId
                     && s.customers[i].stage == "first_follow_pending"
    case CustomerDormant =>
      key.taskId.None?
      && exists i :: 0 <= i < |s.customers| && s.customers[i].id == key.customerId && s.customers[i].stage == "dormant"
  }

  lemma {:induction false} TaskNeedsMeaning(tasks: seq<Task>, key: Key)
    ensures key in TaskNeeds(tasks) <==>
            exists k :: 0 <= k < |tasks| && tasks[k].status == "overdue"
                        && key == Key(TaskOverdue, tasks[k].customerId, Some(tasks[k].id))
  {
    if tasks != [] {
      var init := tasks[..|tasks| - 1];
      TaskNeedsMeaning(init, key);
      assert forall k :: 0 <= k < |init| ==> tasks[k] == init[k];
    }
  }

  lemma {:induction false} StageNeedsMeaning(customers: seq<Customer>, key: Key)
    ensures key in StageNeeds(customers) <==> exists i :: 0 <= i < |customers| && key in StageNeed(customers[i])
  {
    if customers != [] {
      var init := customers[..|customers| - 1];
      StageNeedsMeaning(init, key);
      assert forall i :: 0 <= i < |init| ==> customers[i] == init[i];
    }
  }

  lemma NeedsMeaning(s: Ops, key: Key)
    ensures key in TaskNeeds(s.tasks) + StageNeeds(s.customers) <==> Needed(s, key)
  {
    TaskNeedsMeaning(s.tasks, key);
    StageNeedsMeaning(s.customers, key);
    if Needed(s, key) && key.kind != TaskOverdue {
      var stage := if key.kind == FirstFollowTimeout then "first_follow_pending" else "dormant";
      var i :| 0 <= i < |s.customers| && s.customers[i].id == key.customerId && s.customers[i].stage == stage;
      assert key in StageNeed(s.customers[i]);
    }
  }

  // ---------------------------------------------------------------- counting

  function Opens(e: Exception, key: Key): nat {
    if e.key == key && IsOpen(e) then 1 else 0
  }

  /** How many open exceptions report the same thing. */
  function OpenCount(exceptions: seq<Exception>, key: Key): nat {
    if exceptions == [] then 0 else Opens(exceptions[0], key) + OpenCount(exceptions[1..], key)
  }

  lemma {:induction false} OpenIffCounted(exceptions: seq<Exception>, key: Key)
    ensures HasOpenException(exceptions, key) <==> OpenCount(exceptions, key) > 0
  {
    if exceptions != [] {
      OpenIffCounted(exceptions[1..], key);
      if HasOpenException(exceptions[1..], key) {
        var k :| 0 <= k < |exceptions| - 1 && exceptions[1..][k].key == key && IsOpen(exceptions[1..][k]);
        assert exceptions[k + 1].key == key && IsOpen(exceptions[k + 1]);
      }
    }
  }

  lemma {:induction false} CountAfterUpdate(exceptions: seq<Exception>, k: nat, e: Exception, key: Key)
    requires k < |exceptions|
    ensures OpenCount(exceptions[k := e], key) + Opens(exceptions[k], key) == OpenCount(exceptions, key) + Opens(e, key)
  {
    var after := exceptions[k := e];
    if k == 0 {
      assert after[1..] == exceptions[1..];
    } else {
      CountAfterUpdate(exceptions[1..], k - 1, e, key);
      assert after[1..] == exceptions[1..][k - 1 := e];
    }
  }

  lemma {:induction false} ResolvingLowersCounts(exceptions: seq<Exception>, taskId: nat, key: Key)
    ensures OpenCount(ResolveByTask(exceptions, taskId), key) ==
            if key.taskId == Some(taskId) then 0 else OpenCount(exceptions, key)
  {
    if exceptions != [] {
      ResolvingLowersCounts(exceptions[1..], taskId, key);
      assert ResolveByTask(exceptions, taskId)[1..] == ResolveByTask(exceptions[1..], taskId);
    }
  }

  // ---------------------------------------------------------------- a refresh

  lemma {:induction false} EnsureAllCounts(s: Ops, keys: seq<Key>, key: Key)
    ensures OpenCount(EnsureAll(s, keys).exceptions, key) ==
            if key in keys && OpenCount(s.exceptions, key) == 0 then 1 else OpenCount(s.exceptions, key)
  {
    if keys != [] {
      var init, last := keys[..|keys| - 1], keys[|keys| - 1];
      EnsureAllCounts(s, init, key);
      OpenIffCounted(EnsureAll(s, init).exceptions, last);
      assert key in keys <==> key in init || key == last;
      var before := EnsureAll(s, init).exceptions;
      assert ([Exception(EnsureAll(s, init).issued, last, Pending)] + before)[1..] == before;
    }
  }

  /** What has to be reported is reported then: once if it was not, else as often as before. All other counts stay. */
  lemma RefreshReportsExactlyWhatIsNeeded(s: Ops, key: Key)
    ensures OpenCount(Refresh(s).exceptions, key) ==
            if Needed(s, key) && OpenCount(s.exceptions, key) == 0 then 1 else OpenCount(s.exceptions, key)
    ensures Needed(s, key) ==> HasOpenException(Refresh(s).exceptions, key)
  {
    NeedsMeaning(s, key);
    EnsureAllCounts(s, TaskNeeds(s.tasks) + StageNeeds(s.customers), key);
    OpenIffCounted(Refresh(s).exceptions, key);
  }

  /** New entries in front, old ones untouched. */
  predicate Prepends(s: Ops, s': Ops) {
    && |s'.exceptions| >= |s.exceptions|
    && s'.exceptions[|s'.exceptions| - |s.exceptions|..] == s.exceptions
  }

  predicate FreshEntry(s: Ops, e: Exception) {
    e.status == Pending && s.issued <= e.id
  }

  /** Only fresh pending entries about the given keys are added. */
  predicate AddsReports(s: Ops, s': Ops, keys: seq<Key>) {
    && Prepends(s, s') && s.issued <= s'.issued
    && s'.tasks == s.tasks && s'.customers == s.customers
    && forall i :: 0 <= i < |s'.exceptions| - |s.exceptions| ==>
         FreshEntry(s, s'.exceptions[i]) && s'.exceptions[i].key in keys
  }

  lemma EnsureAddsReport(s: Ops, u: Ops, keys: seq<Key>, key: Key)
    requires AddsReports(s, u, keys)
    ensures AddsReports(s, Ensure(u, key), keys + [key])
  {
    if !HasOpenException(u.exceptions, key) {
      var after, n := Ensure(u, key).exceptions, |u.exceptions| - |s.exceptions|;
      assert after[n + 1..] == u.exceptions[n..];
      assert forall i :: 1 <= i <= n ==> after[i] == u.exceptions[i - 1];
    }
  }

  lemma {:induction false} EnsureAllPrepends(s: Ops, keys: seq<Key>)
    ensures AddsReports(s, EnsureAll(s, keys), keys)
  {
    if keys != [] {
      var init, last := keys[..|keys| - 1], keys[|keys| - 1];
      EnsureAllPrepends(s, init);
      EnsureAddsReport(s, EnsureAll(s, init), init, last);
      assert init + [last] == keys;
    }
  }

  lemma RefreshOnlyAddsPendingReports(s: Ops)
    ensures var s' := Refresh(s);
            && Prepends(s, s') && s'.tasks == s.tasks && s'.customers == s.customers
            && forall i :: 0 <= i < |s'.exceptions| - |s.exceptions| ==>
                 FreshEntry(s, s'.exceptions[i]) && Needed(s, s'.exceptions[i].key)
  {
    EnsureAllPrepends(s, TaskNeeds(s.tasks) + StageNeeds(s.customers));
    forall i | 0 <= i < |Refresh(s).exceptions| - |s.exceptions|
      ensures Needed(s, Refresh(s).exceptions[i].key)
    {
      NeedsMeaning(s, Refresh(s).exceptions[i].key);
    }
  }

  lemma {:induction false} EnsureAllConcat(s: Ops, one: seq<Key>, two: seq<Key>)
    ensures EnsureAll(s, one + two) == EnsureAll(EnsureAll(s, one), two)
  {
    if two == [] {
      assert one + two == one;
    } else {
      EnsureAllConcat(s, one, two[..|two| - 1]);
      ConcatInit(one, two);
    }
  }

  lemma TaskPassReportsTasks(s: Ops)
    ensures var s' := EnsureAll(s, TaskNeeds(s.tasks));
            Prepends(s, s') && forall i :: 0 <= i < |s'.exceptions| - |s.exceptions| ==>
                                 s'.exceptions[i].key.kind == TaskOverdue
  {
    var s' := EnsureAll(s, TaskNeeds(s.tasks));
    EnsureAllPrepends(s, TaskNeeds(s.tasks));
    forall i | 0 <= i < |s'.exceptions| - |s.exceptions| ensures s'.exceptions[i].key.kind == TaskOverdue {
      TaskNeedsMeaning(s.tasks, s'.exceptions[i].key);
    }
  }

  lemma CustomerPassReportsCustomers(s: Ops, customers: seq<Customer>)
    ensures var s' := EnsureAll(s, StageNeeds(customers));
            Prepends(s, s') && forall i :: 0 <= i < |s'.exceptions| - |s.exceptions| ==>
                                 s'.exceptions[i].key.kind != TaskOverdue
  {
    var s' := EnsureAll(s, StageNeeds(customers));
    EnsureAllPrepends(s, StageNeeds(customers));
    forall i | 0 <= i < |s'.exceptions| - |s.exceptions| ensures s'.exceptions[i].key.kind != TaskOverdue {
      StageNeedsMeaning(customers, s'.exceptions[i].key);
    }
  }

  /** Overdue tasks are reported first, and so stand behind the customers reported by the same refresh. */
  lemma RefreshReportsTasksFirst(s: Ops) returns (between: Ops)
    ensures Prepends(s, between) && Prepends(between, Refresh(s))
    ensures forall i :: 0 <= i < |between.exceptions| - |s.exceptions| ==>
              between.exceptions[i].key.kind == TaskOverdue
    ensures forall i :: 0 <= i < |Refresh(s).exceptions| - |between.exceptions| ==>
              Refresh(s).exceptions[i].key.kind != TaskOverdue
  {
    between := EnsureAll(s, TaskNeeds(s.tasks));
    EnsureAllConcat(s, TaskNeeds(s.tasks), StageNeeds(s.customers));
    TaskPassReportsTasks(s);
    CustomerPassReportsCustomers(between, s.customers);
  }

  lemma {:induction false} EnsuringOpenKeysDoesNothing(s: Ops, keys: seq<Key>)
    requires forall i :: 0 <= i < |keys| ==> HasOpenException(s.exceptions, keys[i])
    ensures EnsureAll(s, keys) == s
  {
    if keys != [] {
      EnsuringOpenKeysDoesNothing(s, keys[..|keys| - 1]);
    }
  }

  /** A second refresh changes nothing. */
  lemma RefreshIsIdempotent(s: Ops)
    ensures Refresh(Refresh(s)) == Refresh(s)
  {
    var keys := TaskNeeds(s.tasks) + StageNeeds(s.customers);
    EnsureAllPrepends(s, keys);
    forall i | 0 <= i < |keys| ensures HasOpenException(Refresh(s).exceptions, keys[i]) {
      EnsureAllCounts(s, keys, keys[i]);
      OpenIffCounted(Refresh(s).exceptions, keys[i]);
    }
    EnsuringOpenKeysDoesNothing(Refresh(s), keys);
  }

  // ---------------------------------------------------------------- what one request does to an exception

  function StatusAfter(s: Ops, e: Exception, a: Action): ExceptionStatus {
    match a
    case ExceptionVerb(id, verb) => if id == e.id && VerbStatus(verb).Some? then VerbStatus(verb).value else e.status
    case TaskVerb(id, verb, _) =>
      if verb == "complete" && Find(TaskIds(s.tasks), id).Some? && e.key.taskId == Some(id) then Resolved else e.status
    case _ => e.status
  }

  lemma TaskVerbExceptions(s: Ops, id: nat, verb: string, assignee: string)
    ensures Next(s, TaskVerb(id, verb, assignee)).exceptions ==
            if verb == "complete" && Find(TaskIds(s.tasks), id).Some? then ResolveByTask(s.exceptions, id)
            else s.exceptions
  {
  }

  /** Requests about stages, follow-ups and new tasks leave the exceptions alone. */
  lemma OtherRequestsLeaveExceptions(s: Ops, a: Action)
    requires a.StageRequest? || a.FollowupRequest? || a.TaskRequest?
    ensures Next(s, a).exceptions == s.exceptions && s.issued <= Next(s, a).issued
  {
  }

  lemma TaskVerbIssues(s: Ops, id: nat, verb: string, assignee: string)
    ensures s.issued <= Next(s, TaskVerb(id, verb, assignee)).issued
  {
  }

  /** Acting on an exception by id writes the verb's status to it, and to no other. */
  lemma ActingOnException(s: Ops, k: nat, verb: string)
    requires k < |s.exceptions| && IssuedExceptions(s) && VerbStatus(verb).Some?
    ensures var e := s.exceptions[k].(status := VerbStatus(verb).value);
            Next(s, ExceptionVerb(s.exceptions[k].id, verb)) == s.(exceptions := s.exceptions[k := e])
  {
    FindAt(ExceptionIds(s.exceptions), k);
  }

  lemma ActingOnNoException(s: Ops, id: nat, verb: string)
    requires Find(ExceptionIds(s.exceptions), id).None? || VerbStatus(verb).None?
    ensures Next(s, ExceptionVerb(id, verb)) == s
  {
  }

  /** Where the exception at position k sits after a request. */
  function PositionAfter(s: Ops, k: nat, a: Action): int {
    |Next(s, a).exceptions| - |s.exceptions| + k
  }

  lemma ExceptionVerbStep(s: Ops, k: nat, id: nat, verb: string)
    requires k < |s.exceptions| && IssuedExceptions(s)
    ensures var s', e := Next(s, ExceptionVerb(id, verb)), s.exceptions[k];
            && |s'.exceptions| == |s.exceptions|
            && s'.exceptions[k] == e.(status := StatusAfter(s, e, ExceptionVerb(id, verb)))
  {
    var found := Find(ExceptionIds(s.exceptions), id);
    if found.Some? && VerbStatus(verb).Some? {
      ActingOnException(s, found.value, verb);
    } else {
      ActingOnNoException(s, id, verb);
      FindAt(ExceptionIds(s.exceptions), k);
    }
  }

  lemma RefreshStep(s: Ops, k: nat)
    requires k < |s.exceptions|
    ensures var s' := Refresh(s);
            |s'.exceptions| >= |s.exceptions| && s'.exceptions[|s'.exceptions| - |s.exceptions| + k] == s.exceptions[k]
  {
    EnsureAllPrepends(s, TaskNeeds(s.tasks) + StageNeeds(s.customers));
    PrependedAt(s, Refresh(s), k);
  }

  lemma PrependedAt(s: Ops, s': Ops, k: nat)
    requires Prepends(s, s') && k < |s.exceptions|
    ensures s'.exceptions[|s'.exceptions| - |s.exceptions| + k] == s.exceptions[k]
  {
    assert s'.exceptions[|s'.exceptions| - |s.exceptions|..][k] == s.exceptions[k];
  }

  /**
    No request deletes or relabels an exception, and its status moves only when an operator
    acts on it or its task is completed; in particular nothing else closes one about a customer.
   */
  lemma ExceptionStatusStep(s: Ops, k: nat, a: Action)
    requires k < |s.exceptions| && IssuedExceptions(s)
    ensures var s', at, e := Next(s, a), PositionAfter(s, k, a), s.exceptions[k];
            && k <= at < |s'.exceptions|
            && s'.exceptions[at] == e.(status := StatusAfter(s, e, a))
  {
    match a
    case RefreshRequest => RefreshStep(s, k);
    case ExceptionVerb(id, verb) => ExceptionVerbStep(s, k, id, verb);
    case TaskVerb(id, verb, assignee) => TaskVerbExceptions(s, id, verb, assignee);
    case _ => OtherRequestsLeaveExceptions(s, a);
  }

  lemma ExceptionVerbKeepsIssued(s: Ops, id: nat, verb: string)
    requires IssuedExceptions(s)
    ensures IssuedExceptions(Next(s, ExceptionVerb(id, verb))) && Next(s, ExceptionVerb(id, verb)).issued == s.issued
  {
    var found := Find(ExceptionIds(s.exceptions), id);
    if found.Some? && VerbStatus(verb).Some? {
      ActingOnException(s, found.value, verb);
    } else {
      ActingOnNoException(s, id, verb);
    }
  }

  lemma NextKeepsIssuedExceptions(s: Ops, a: Action)
    requires IssuedExceptions(s)
    ensures IssuedExceptions(Next(s, a)) && s.issued <= Next(s, a).issued
  {
    match a
    case RefreshRequest => EnsureAllKeepsIssued(s, TaskNeeds(s.tasks) + StageNeeds(s.customers));
    case ExceptionVerb(id, verb) => ExceptionVerbKeepsIssued(s, id, verb);
    case TaskVerb(id, verb, assignee) =>
      TaskVerbExceptions(s, id, verb, assignee);
      TaskVerbIssues(s, id, verb, assignee);
    case _ => OtherRequestsLeaveExceptions(s, a);
  }

  lemma {:induction false} EnsureAllKeepsIssued(s: Ops, keys: seq<Key>)
    requires IssuedExceptions(s)
    ensures IssuedExceptions(EnsureAll(s, keys)) && s.issued <= EnsureAll(s, keys).issued
  {
    if keys != [] {
      EnsureAllKeepsIssued(s, keys[..|keys| - 1]);
    }
  }

  // ---------------------------------------------------------------- whole runs

  /** Requests by which an operator takes exception id out of the resolved state. */
  predicate Reopens(a: Action, id: nat) {
    a.ExceptionVerb? && a.exceptionId == id && (a.verb == "process" || a.verb == "ignore")
  }

  /** One request: a resolved exception stays resolved exactly if nobody processes or ignores it. */
  lemma ResolvedStaysIff(s: Ops, k: nat, a: Action)
    requires k < |s.exceptions| && IssuedExceptions(s) && s.exceptions[k].status == Resolved
    ensures k <= PositionAfter(s, k, a) < |Next(s, a).exceptions|
    ensures Next(s, a).exceptions[PositionAfter(s, k, a)].status == Resolved <==> !Reopens(a, s.exceptions[k].id)
  {
    ExceptionStatusStep(s, k, a);
  }

  predicate NotOverdue(s: Ops, taskId: nat) {
    taskId < s.issued && forall k :: 0 <= k < |s.tasks| && s.tasks[k].id == taskId ==> s.tasks[k].status != "overdue"
  }

  predicate AboutTask(s: Ops, k: int, taskId: nat) {
    0 <= k < |s.exceptions| && s.exceptions[k].key.taskId == Some(taskId)
  }

  lemma ChangeStageKeepsNotOverdue(s: Ops, i: nat, stage: string, taskId: nat)
    requires i < |s.customers| && NotOverdue(s, taskId)
    ensures NotOverdue(ChangeStage(s, i, stage), taskId)
  {
  }

  lemma SetTaskStatusKeepsNotOverdue(s: Ops, k: nat, status: string, taskId: nat)
    requires k < |s.tasks| && NotOverdue(s, taskId) && status != "overdue"
    ensures NotOverdue(SetTaskStatus(s, k, status), taskId)
  {
    var s1 := SetStatus(s, k, status);
    assert NotOverdue(s1, taskId);
    var found := Find(CustomerIds(s1.customers), s.tasks[k].customerId);
    if found.Some? {
      ChangeStageKeepsNotOverdue(s1, found.value, "following", taskId);
    }
  }

  lemma AddFollowupKeepsNotOverdue(s: Ops, i: nat, stageAfter: string, nextTime: string, taskId: nat)
    requires i < |s.customers| && NotOverdue(s, taskId)
    ensures NotOverdue(AddFollowup(s, i, stageAfter, nextTime), taskId)
  {
    var s1 := s.(followups := [Followup(s.customers[i].id, s.customers[i].stage, stageAfter)] + s.followups);
    ChangeStageKeepsNotOverdue(s1, i, stageAfter, taskId);
  }

  lemma DoTaskVerbKeepsNotOverdue(s: Ops, k: nat, verb: string, assignee: string, taskId: nat)
    requires k < |s.tasks| && NotOverdue(s, taskId)
    ensures NotOverdue(DoTaskVerb(s, k, verb, assignee).0, taskId)
  {
    if verb == "process" {
      SetTaskStatusKeepsNotOverdue(s, k, "processing", taskId);
    } else if verb == "complete" {
      SetTaskStatusKeepsNotOverdue(s, k, "completed", taskId);
    } else if verb == "ignore" {
      SetTaskStatusKeepsNotOverdue(s, k, "ignored", taskId);
    }
  }

  lemma NextKeepsNotOverdue(s: Ops, a: Action, taskId: nat)
    requires NotOverdue(s, taskId)
    ensures NotOverdue(Next(s, a), taskId)
  {
    match a
    case StageRequest(id, stage) =>
      var found := Find(CustomerIds(s.customers), id);
      if found.Some? {
        ChangeStageKeepsNotOverdue(s, found.value, stage, taskId);
      }
    case FollowupRequest(id, stageAfter, nextTime) =>
      var found := Find(CustomerIds(s.customers), id);
      if found.Some? {
        AddFollowupKeepsNotOverdue(s, found.value, stageAfter, nextTime, taskId);
      }
    case TaskVerb(id, verb, assignee) =>
      var found := Find(TaskIds(s.tasks), id);
      if found.Some? {
        DoTaskVerbKeepsNotOverdue(s, found.value, verb, assignee, taskId);
      }
    case RefreshRequest => EnsureAllPrepends(s, TaskNeeds(s.tasks) + StageNeeds(s.customers));
    case _ =>
  }

  /** No request reports a task that is not overdue: every exception about it afterwards was there before. */
  lemma NextReportsNothingOn(s: Ops, a: Action, taskId: nat, at: int)
    requires NotOverdue(s, taskId) && AboutTask(Next(s, a), at, taskId)
    ensures |Next(s, a).exceptions| >= |s.exceptions|
    ensures at >= |Next(s, a).exceptions| - |s.exceptions|
  {
    match a
    case RefreshRequest => RefreshOnlyAddsPendingReports(s);
    case TaskVerb(id, verb, assignee) => TaskVerbExceptions(s, id, verb, assignee);
    case ExceptionVerb(_, _) =>
    case _ => OtherRequestsLeaveExceptions(s, a);
  }

  ghost predicate Undisturbed(s: Ops, a: Action, taskId: nat) {
    forall k :: AboutTask(s, k, taskId) ==> !Reopens(a, s.exceptions[k].id)
  }

  ghost predicate AllResolved(s: Ops, taskId: nat) {
    forall k :: AboutTask(s, k, taskId) ==> s.exceptions[k].status == Resolved
  }

  /** So each of them is one from before, k places from where it was. */
  lemma ReportOnTaskWasThere(s: Ops, a: Action, taskId: nat, at: int)
    requires IssuedExceptions(s) && NotOverdue(s, taskId) && AboutTask(Next(s, a), at, taskId)
    ensures var k := at - PositionAfter(s, 0, a);
            && AboutTask(s, k, taskId)
            && Next(s, a).exceptions[at].id == s.exceptions[k].id
            && Next(s, a).exceptions[at].status == StatusAfter(s, s.exceptions[k], a)
  {
    NextReportsNothingOn(s, a, taskId, at);
    ExceptionStatusStep(s, at - PositionAfter(s, 0, a), a);
  }

  lemma StaysResolved(s: Ops, e: Exception, a: Action)
    requires e.status == Resolved && !Reopens(a, e.id)
    ensures StatusAfter(s, e, a) == Resolved
  {
  }

  lemma NextKeepsResolved(s: Ops, a: Action, taskId: nat)
    requires IssuedExceptions(s) && NotOverdue(s, taskId) && AllResolved(s, taskId)
    requires Undisturbed(s, a, taskId)
    ensures AllResolved(Next(s, a), taskId)
  {
    var s' := Next(s, a);
    forall at | AboutTask(s', at, taskId) ensures s'.exceptions[at].status == Resolved {
      ReportOnTaskWasThere(s, a, taskId, at);
      StaysResolved(s, s.exceptions[at - PositionAfter(s, 0, a)], a);
    }
  }

  /** No request of the run reopens an exception about the task. */
  ghost predicate LeftAlone(s: Ops, actions: seq<Action>, taskId: nat) {
    forall i :: 0 <= i < |actions| ==> Undisturbed(Run(s, actions[..i]), actions[i], taskId)
  }

  lemma LeftAloneInit(s: Ops, actions: seq<Action>, taskId: nat)
    requires actions != [] && LeftAlone(s, actions, taskId)
    ensures LeftAlone(s, actions[..|actions| - 1], taskId)
    ensures Undisturbed(Run(s, actions[..|actions| - 1]), actions[|actions| - 1], taskId)
  {
    var init := actions[..|actions| - 1];
    forall i | 0 <= i < |init| ensures Undisturbed(Run(s, init[..i]), init[i], taskId) {
      assert init[..i] == actions[..i];
    }
  }

  lemma {:induction false} ResolvedTaskStaysResolved(s: Ops, actions: seq<Action>, taskId: nat)
    requires IssuedExceptions(s) && NotOverdue(s, taskId) && AllResolved(s, taskId)
    requires LeftAlone(s, actions, taskId)
    ensures IssuedExceptions(Run(s, actions)) && NotOverdue(Run(s, actions), taskId)
    ensures AllResolved(Run(s, actions), taskId)
    decreases |actions|
  {
    if actions != [] {
      var init, last := actions[..|actions| - 1], actions[|actions| - 1];
      LeftAloneInit(s, actions, taskId);
      ResolvedTaskStaysResolved(s, init, taskId);
      NextKeepsIssuedExceptions(Run(s, init), last);
      NextKeepsNotOverdue(Run(s, init), last, taskId);
      NextKeepsResolved(Run(s, init), last, taskId);
    }
  }

  lemma CompletionResolves(s: Ops, taskId: nat, assignee: string)
    requires IssuedTasks(s) && Find(TaskIds(s.tasks), taskId).Some?
    ensures AllResolved(Next(s, TaskVerb(taskId, "complete", assignee)), taskId)
    ensures NotOverdue(Next(s, TaskVerb(taskId, "complete", assignee)), taskId)
  {
    TaskVerbExceptions(s, taskId, "complete", assignee);
    var k := Find(TaskIds(s.tasks), taskId).value;
    var s1 := SetStatus(s, k, "completed");
    assert NotOverdue(s1, taskId);
    var found := Find(CustomerIds(s1.customers), s.tasks[k].customerId);
    if found.Some? {
      ChangeStageKeepsNotOverdue(s1, found.value, "following", taskId);
    }
  }

  /**
    Completing a task resolves every exception about it, no later request reports it as overdue
    again, and all of them stay resolved as long as nobody processes or ignores one.
   */
  lemma CompletedTaskStaysQuiet(s: Ops, taskId: nat, assignee: string, later: seq<Action>)
    requires IssuedTasks(s) && IssuedExceptions(s) && Find(TaskIds(s.tasks), taskId).Some?
    requires LeftAlone(Next(s, TaskVerb(taskId, "complete", assignee)), later, taskId)
    ensures var done := Next(s, TaskVerb(taskId, "complete", assignee));
            AllResolved(done, taskId) && AllResolved(Run(done, later), taskId)
  {
    CompletionResolves(s, taskId, assignee);
    NextKeepsIssuedExceptions(s, TaskVerb(taskId, "complete", assignee));
    ResolvedTaskStaysResolved(Next(s, TaskVerb(taskId, "complete", assignee)), later, taskId);
  }

  /** There is an exception with this id about the task. */
  ghost predicate ReportedAs(s: Ops, taskId: nat, id: nat) {
    exists k :: AboutTask(s, k, taskId) && s.exceptions[k].id == id
  }

  lemma ReportStep(s: Ops, a: Action, taskId: nat, at: int) returns (k: int)
    requires IssuedExceptions(s) && NotOverdue(s, taskId) && AboutTask(Next(s, a), at, taskId)
    ensures AboutTask(s, k, taskId) && s.exceptions[k].id == Next(s, a).exceptions[at].id
  {
    ReportOnTaskWasThere(s, a, taskId, at);
    k := at - PositionAfter(s, 0, a);
  }

  lemma RunStep(s: Ops, actions: seq<Action>) returns (before: Ops, last: Action)
    requires actions != []
    ensures before == Run(s, actions[..|actions| - 1]) && last == actions[|actions| - 1]
    ensures Run(s, actions) == Next(before, last)
  {
    before, last := Run(s, actions[..|actions| - 1]), actions[|actions| - 1];
  }

  /** Reports on a task that is not overdue never grow in number, reopened or not. */
  lemma {:induction false} NoNewReports(s: Ops, actions: seq<Action>, taskId: nat, at: int)
    requires IssuedExceptions(s) && NotOverdue(s, taskId) && AboutTask(Run(s, actions), at, taskId)
    ensures ReportedAs(s, taskId, Run(s, actions).exceptions[at].id)
    decreases |actions|
  {
    if actions == [] {
      assert AboutTask(s, at, taskId);
    } else {
      StaysNotOverdue(s, actions[..|actions| - 1], taskId);
      var before, last := RunStep(s, actions);
      var k := ReportStep(before, last, taskId, at);
      NoNewReports(s, actions[..|actions| - 1], taskId, k);
    }
  }

  lemma {:induction false} StaysNotOverdue(s: Ops, actions: seq<Action>, taskId: nat)
    requires IssuedExceptions(s) && NotOverdue(s, taskId)
    ensures IssuedExceptions(Run(s, actions)) && NotOverdue(Run(s, actions), taskId)
  {
    if actions != [] {
      StaysNotOverdue(s, actions[..|actions| - 1], taskId);
      NextKeepsIssuedExceptions(Run(s, actions[..|actions| - 1]), actions[|actions| - 1]);
      NextKeepsNotOverdue(Run(s, actions[..|actions| - 1]), actions[|actions| - 1], taskId);
    }
  }

  // ---------------------------------------------------------------- reports about customers

  predicate NoOperatorActs(actions: seq<Action>) {
    forall i :: 0 <= i < |actions| ==> !actions[i].ExceptionVerb?
  }

  /** So an open report about a customer outlives its cause: without an operator no later stage or task closes it. */
  lemma {:induction false} CustomerReportOutlivesItsCause(s: Ops, actions: seq<Action>, key: Key)
    requires IssuedExceptions(s) && key.taskId.None? && HasOpenException(s.exceptions, key) && NoOperatorActs(actions)
    ensures IssuedExceptions(Run(s, actions)) && HasOpenException(Run(s, actions).exceptions, key)
    decreases |actions|
  {
    if actions != [] {
      var init, last := actions[..|actions| - 1], actions[|actions| - 1];
      CustomerReportOutlivesItsCause(s, init, key);
      var s1 := Run(s, init);
      NextKeepsIssuedExceptions(s1, last);
      var k :| 0 <= k < |s1.exceptions| && s1.exceptions[k].key == key && IsOpen(s1.exceptions[k]);
      ExceptionStatusStep(s1, k, last);
      assert actions[|actions| - 1] == last;
    }
  }

  // ---------------------------------------------------------------- duplicates

  ghost predicate AtMostOneOpen(exceptions: seq<Exception>) {
    forall key: Key :: OpenCount(exceptions, key) <= 1
  }

  /** Processing a closed exception although another one already reports the same thing. */
  predicate DuplicatesReport(s: Ops, a: Action) {
    && a.ExceptionVerb? && a.verb == "process"
    && var found := Find(ExceptionIds(s.exceptions), a.exceptionId);
       && found.Some?
       && var e := s.exceptions[found.value];
          !IsOpen(e) && HasOpenException(s.exceptions, e.key)
  }

  lemma ExceptionVerbCounts(s: Ops, id: nat, verb: string)
    requires AtMostOneOpen(s.exceptions)
    ensures AtMostOneOpen(Next(s, ExceptionVerb(id, verb)).exceptions) <==>
            !DuplicatesReport(s, ExceptionVerb(id, verb))
  {
    var found := Find(ExceptionIds(s.exceptions), id);
    if found.Some? && VerbStatus(verb).Some? {
      var k, e := found.value, s.exceptions[found.value];
      var e' := e.(status := VerbStatus(verb).value);
      OpenIffCounted(s.exceptions, e.key);
      CountAfterUpdate(s.exceptions, k, e', e.key);
      var after := s.exceptions[k := e'];
      forall key: Key ensures key == e.key || OpenCount(after, key) <= 1 {
        CountAfterUpdate(s.exceptions, k, e', key);
      }
      assert OpenCount(after, e.key) <= 1 <==> !DuplicatesReport(s, ExceptionVerb(id, verb));
    }
  }

  /** One report per situation is kept by every request but exactly that one. */
  lemma DuplicatedIff(s: Ops, a: Action)
    requires AtMostOneOpen(s.exceptions)
    ensures AtMostOneOpen(Next(s, a).exceptions) <==> !DuplicatesReport(s, a)
  {
    match a
    case ExceptionVerb(id, verb) => ExceptionVerbCounts(s, id, verb);
    case RefreshRequest =>
      forall key: Key ensures OpenCount(Refresh(s).exceptions, key) <= 1 {
        RefreshReportsExactlyWhatIsNeeded(s, key);
      }
    case TaskVerb(id, verb, assignee) =>
      TaskVerbExceptions(s, id, verb, assignee);
      forall key: Key ensures OpenCount(ResolveByTask(s.exceptions, id), key) <= 1 {
        ResolvingLowersCounts(s.exceptions, id, key);
      }
    case _ =>
  }

  /** Resolve a report, refresh, process the old one again. */
  function Duplicate(id: nat): seq<Action> {
    [ExceptionVerb(id, "resolve"), RefreshRequest, ExceptionVerb(id, "process")]
  }

  lemma RunOfThree(s: Ops, one: Action, two: Action, three: Action)
    ensures Run(s, [one, two, three]) == Next(Next(Next(s, one), two), three)
  {
    assert [one, two, three][..2] == [one, two] && [one, two][..1] == [one] && [one][..0] == [];
    assert Run(s, [one]) == Next(s, one);
    assert Run(s, [one, two]) == Next(Run(s, [one]), two);
  }

  /** That does happen: any situation that is reported once and lasts can be reported twice. */
  lemma AnyLastingReportCanBeDuplicated(s: Ops, key: Key) returns (id: nat)
    requires IssuedExceptions(s) && Needed(s, key) && OpenCount(s.exceptions, key) == 1
    ensures OpenCount(Run(s, Duplicate(id)).exceptions, key) == 2
  {
    OpenIffCounted(s.exceptions, key);
    var k :| 0 <= k < |s.exceptions| && s.exceptions[k].key == key && IsOpen(s.exceptions[k]);
    id := s.exceptions[k].id;
    ResolvedAndReportedAgain(s, k, key);
    var s2 := Refresh(Next(s, ExceptionVerb(id, "resolve")));
    ProcessingOpensAgain(s2, |s2.exceptions| - |s.exceptions| + k, key);
    RunOfDuplicate(s, id);
  }

  lemma RunOfDuplicate(s: Ops, id: nat)
    ensures Run(s, Duplicate(id)) == Next(Refresh(Next(s, ExceptionVerb(id, "resolve"))), ExceptionVerb(id, "process"))
  {
    RunOfThree(s, ExceptionVerb(id, "resolve"), RefreshRequest, ExceptionVerb(id, "process"));
  }

  lemma ProcessingOpensAgain(s: Ops, at: nat, key: Key)
    requires IssuedExceptions(s) && at < |s.exceptions|
    requires s.exceptions[at].key == key && s.exceptions[at].status == Resolved
    ensures var s' := Next(s, ExceptionVerb(s.exceptions[at].id, "process"));
            OpenCount(s'.exceptions, key) == OpenCount(s.exceptions, key) + 1
  {
    ActingOnException(s, at, "process");
    CountAfterUpdate(s.exceptions, at, s.exceptions[at].(status := Processing), key);
  }

  lemma ResolvedAndReportedAgain(s: Ops, k: nat, key: Key)
    requires IssuedExceptions(s) && Needed(s, key) && OpenCount(s.exceptions, key) == 1
    requires k < |s.exceptions| && s.exceptions[k].key == key && IsOpen(s.exceptions[k])
    ensures var s2 := Refresh(Next(s, ExceptionVerb(s.exceptions[k].id, "resolve")));
            && IssuedExceptions(s2) && |s2.exceptions| >= |s.exceptions|
            && s2.exceptions[|s2.exceptions| - |s.exceptions| + k] == s.exceptions[k].(status := Resolved)
            && OpenCount(s2.exceptions, key) == 1
  {
    ActingOnException(s, k, "resolve");
    var s1 := s.(exceptions := s.exceptions[k := s.exceptions[k].(status := Resolved)]);
    CountAfterUpdate(s.exceptions, k, s1.exceptions[k], key);
    assert Needed(s1, key);
    RefreshReportsExactlyWhatIsNeeded(s1, key);
    RefreshStep(s1, k);
    EnsureAllKeepsIssued(s1, TaskNeeds(s1.tasks) + StageNeeds(s1.customers));
  }

  /** For example the report about a dormant customer. */
  lemma DormantReportIsDuplicated(customerId: string, owner: string) returns (id: nat)
    ensures var s := Ops([Customer(customerId, owner, "dormant")], [], [], [], [], [], 0);
            var key := Key(CustomerDormant, customerId, None);
            && AtMostOneOpen(Refresh(s).exceptions)
            && OpenCount(Run(Refresh(s), Duplicate(id)).exceptions, key) == 2
  {
    var s := Ops([Customer(customerId, owner, "dormant")], [], [], [], [], [], 0);
    var key := Key(CustomerDormant, customerId, None);
    forall k: Key ensures OpenCount(Refresh(s).exceptions, k) <= 1 {
      RefreshReportsExactlyWhatIsNeeded(s, k);
    }
    assert s.customers[0].id == customerId && s.customers[0].stage == "dormant";
    assert Needed(s, key);
    RefreshReportsExactlyWhatIsNeeded(s, key);
    RefreshOnlyAddsPendingReports(s);
    NextKeepsIssuedExceptions(s, RefreshRequest);
    id := AnyLastingReportCanBeDuplicated(Refresh(s), key);
  }
}
