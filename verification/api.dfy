/**
  The task handlers of the HTTP API (main.py), without HTTP and without the
  event stream: each handler loads the task, changes its fields and saves it
  back, or answers with an HTTP error. The clock is the parameter `now`.
*/
module Api {
  import opened Wrappers
  import opened TextCodec
  import opened RedisStore
  import opened TaskModel
  import opened Jobs
  import Deadline
  import Monitoring

  /** A handler's answer: a body, or an HTTP error status with its detail. */
  datatype Reply<+T> = Success(body: T) | HttpError(code: nat, detail: string)

  const NOT_FOUND := "Task not found"
  const REQUEST_FAILED := "Extension request failed"
  const COMPLETE_REFUSED := "Cannot complete while extension is rejected."

  // ---------------------------------------------------------------------------
  // `create_task`

  /** `f"task_{int(now.timestamp())}"`. */
  function TaskIdAt(now: Time): string {
    "task_" + Digits(now)
  }

  /** Tasks created at different seconds get different ids. */
  lemma TaskIdsDiffer(now1: Time, now2: Time)
    requires now1 != now2
    ensures TaskIdAt(now1) != TaskIdAt(now2)
  {
    if TaskIdAt(now1) == TaskIdAt(now2) {
      assert Digits(now1) == TaskIdAt(now1)[5..] == TaskIdAt(now2)[5..] == Digits(now2);
      DigitsValueOfDigits(now1);
      DigitsValueOfDigits(now2);
    }
  }

  /** The task `create_task` builds: unassigned, no history, the given candidates, due in a day. */
  function CreatedTask(matches: Scores, now: Time): (t: Task)
    ensures t.taskId == TaskIdAt(now) && t.status == UNASSIGNED && t.extensions == []
    ensures t.matches == matches
    ensures t.deadline == Some(now + GRACE) && t.dueDate == Some(now + GRACE)
    ensures t.assignedTo.None? && t.claimedAt.None? && t.extensionStatus == NONE
  {
    NewTask(TaskIdAt(now)).(matches := matches, deadline := Some(now + GRACE), dueDate := Some(now + GRACE))
  }

  /**
    `create_task`: saves the new task, hands it to the assignment job, and
    answers with the task as it reads back.
  */
  method CreateTask(store: Store, matches: Scores, now: Time) returns (r: Option<Task>, jobs: seq<Dispatch>)
    modifies store
    ensures store.tasks == old(store.tasks)[TaskIdAt(now) := old(store.TaskHash(TaskIdAt(now))) + ToRedisFields(CreatedTask(matches, now))]
    ensures store.talents == old(store.talents) && store.active == old(store.active)
    ensures r == Some(Normalized(CreatedTask(matches, now)))
    ensures jobs == [AssignJob(TaskIdAt(now))]
  {
    var task := CreatedTask(matches, now);
    var _ := SaveTask(store, task);
    jobs := [AssignJob(task.taskId)];
    r := LoadTask(store, task.taskId);
  }

  /** A created task reads back exactly as built, with empty talent and rejection reason. */
  lemma CreatedTaskReadsBack(matches: Scores, now: Time, h: Hash)
    ensures var t := FromRedis(TaskIdAt(now), h + ToRedisFields(CreatedTask(matches, now)));
      && t.Some? && t.value.status == UNASSIGNED && t.value.matches == matches && t.value.extensions == []
      && t.value.deadline == Some(now + GRACE) && t.value.dueDate == Some(now + GRACE)
      && t.value.assignedTo == Some("") && t.value.extensionRejectionReason == Some("")
  {
    LoadAfterSave(CreatedTask(matches, now), h);
  }

  // ---------------------------------------------------------------------------
  // `get_task` and `request_extension`

  /** `get_task`: the stored task, or 404. */
  function GetTask(store: Store, taskId: string): (r: Reply<Task>)
    reads store
    ensures r.Success? <==> LoadTask(store, taskId).Some?
    ensures r.Success? ==> r.body == LoadTask(store, taskId).value && r.body.taskId == taskId
    ensures r.HttpError? ==> r.code == 404 && r.detail == NOT_FOUND
  {
    match LoadTask(store, taskId)
    case None => HttpError(404, NOT_FOUND)
    case Some(t) => Success(t)
  }

  /** The `request-extension` handler: 400 when the service reports failure, else "pending". */
  method RequestExtension(store: Store, taskId: string, reason: string, now: Time) returns (r: Reply<string>)
    modifies store
    ensures var (h, ok) := Deadline.RequestedHash(old(store.TaskHash(taskId)), reason, now);
      && store.tasks == old(store.tasks)[taskId := h]
      && (ok ==> r == Success(PENDING))
      && (!ok ==> r == HttpError(400, REQUEST_FAILED))
    ensures store.talents == old(store.talents) && store.active == old(store.active)
  {
    var ok := Deadline.RequestExtension(store, taskId, reason, now);
    if !ok {
      return HttpError(400, REQUEST_FAILED);
    }
    return Success(PENDING);
  }

  // ---------------------------------------------------------------------------
  // `process_extension`

  /** `req.reason or "Rejected"`: a missing or empty reason falls back. */
  function ReasonOrDefault(reason: Option<string>): (r: string)
    ensures r != ""
    ensures reason.Some? && reason.value != "" ==> r == reason.value
    ensures !(reason.Some? && reason.value != "") ==> r == "Rejected"
  {
    if reason.Some? && reason.value != "" then reason.value else "Rejected"
  }

  /**
    The fields `process_extension` assigns: the extension status as given;
    on "rejected" the reason (or "Rejected") and nothing else; on any other
    status an empty reason and deadline and due date a day from now. The
    work status is never touched.
  */
  function Processed(t: Task, status: string, reason: Option<string>, now: Time): (r: Task)
    ensures r.extensionStatus == status && r.status == t.status
    ensures status == REJECTED ==>
              r.extensionRejectionReason == Some(ReasonOrDefault(reason))
              && r.deadline == t.deadline && r.dueDate == t.dueDate
    ensures status != REJECTED ==>
              r.extensionRejectionReason == Some("")
              && r.deadline == Some(now + GRACE) && r.dueDate == r.deadline
    ensures r.(extensionStatus := t.extensionStatus, extensionRejectionReason := t.extensionRejectionReason,
               deadline := t.deadline, dueDate := t.dueDate) == t
  {
    var t1 := t.(extensionStatus := status);
    if status == REJECTED then
      t1.(extensionRejectionReason := Some(ReasonOrDefault(reason)))
    else
      var deadline := Some(now + GRACE);
      t1.(extensionRejectionReason := Some(""), deadline := deadline, dueDate := deadline)
  }

  /** `process_extension`: 404 without a write for a missing task; else the decision is saved and echoed. */
  method ProcessExtension(store: Store, taskId: string, status: string, reason: Option<string>, now: Time)
    returns (r: Reply<string>)
    modifies store
    ensures old(LoadTask(store, taskId)).None? ==>
              r == HttpError(404, NOT_FOUND) && store.tasks == old(store.tasks)
    ensures old(LoadTask(store, taskId)).Some? ==>
              var t := Processed(old(LoadTask(store, taskId)).value, status, reason, now);
              && r == Success(status)
              && store.tasks == old(store.tasks)[taskId := old(store.TaskHash(taskId)) + ToRedisFields(t)]
              && LoadTask(store, taskId) == Some(Normalized(t))
    ensures store.talents == old(store.talents) && store.active == old(store.active)
  {
    var task := LoadTask(store, taskId);
    if task.None? {
      return HttpError(404, NOT_FOUND);
    }
    var t := Processed(task.value, status, reason, now);
    var _ := SaveTask(store, t);
    return Success(status);
  }

  /**
    A processed approval keeps the task out of the sweep's hands until its
    new deadline has passed.
  */
  lemma ApprovalPostponesSweep(t: Task, status: string, reason: Option<string>, now: Time, later: Time)
    requires status != REJECTED && status != PENDING && t.status != REJECTED
    requires later <= now + GRACE
    ensures Monitoring.Decide(Processed(t, status, reason, now), later) == Monitoring.NoAction
  {
  }

  // ---------------------------------------------------------------------------
  // `complete_task`

  /** The completed task: status "completed", every other field as it was. */
  function Completed(t: Task): (r: Task)
    ensures r.status == COMPLETED && r.(status := t.status) == t
  {
    t.(status := COMPLETED)
  }

  /**
    `complete_task`: 404 for a missing task and 400 while the extension is
    rejected, both without a write; else the task is saved as completed.
  */
  method CompleteTask(store: Store, taskId: string) returns (r: Reply<string>)
    modifies store
    ensures old(LoadTask(store, taskId)).None? ==>
              r == HttpError(404, NOT_FOUND) && store.tasks == old(store.tasks)
    ensures old(LoadTask(store, taskId)).Some? && old(LoadTask(store, taskId)).value.extensionStatus == REJECTED ==>
              r == HttpError(400, COMPLETE_REFUSED) && store.tasks == old(store.tasks)
    ensures old(LoadTask(store, taskId)).Some? && old(LoadTask(store, taskId)).value.extensionStatus != REJECTED ==>
              var t := Completed(old(LoadTask(store, taskId)).value);
              && r == Success(COMPLETED)
              && store.tasks == old(store.tasks)[taskId := old(store.TaskHash(taskId)) + ToRedisFields(t)]
              && LoadTask(store, taskId) == Some(Normalized(t))
    ensures store.talents == old(store.talents) && store.active == old(store.active)
  {
    var task := LoadTask(store, taskId);
    if task.None? {
      return HttpError(404, NOT_FOUND);
    }
    if task.value.extensionStatus == REJECTED {
      return HttpError(400, COMPLETE_REFUSED);
    }
    var _ := SaveTask(store, Completed(task.value));
    return Success(COMPLETED);
  }

  /** A completed task without a pending extension is left alone by every later sweep. */
  lemma CompletedIsSettled(t: Task, now: Time)
    requires t.extensionStatus != PENDING
    ensures Monitoring.Decide(Completed(t), now) == Monitoring.NoAction
  {
  }
}
