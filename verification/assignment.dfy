/**
  `assign_task` (tasks/assignment.py): runs the matching scan once and,
  when it yields a talent, writes a fresh task record bound to that talent.
*/
module Assignment {
  import opened Wrappers
  import opened RedisStore
  import opened TaskModel
  import opened Matching

  /** `Task(task_id=..., assigned_to=talent, claimed_at=now)`: every other field at its default. */
  function AssignedTask(taskId: string, talent: string, now: Time): (t: Task)
    ensures t.taskId == taskId && t.assignedTo == Some(talent) && t.claimedAt == Some(now)
    ensures t.status == UNASSIGNED && t.matches == [] && t.extensions == []
    ensures t.deadline.None? && t.dueDate.None? && t.extensionStatus == NONE
  {
    NewTask(taskId).(assignedTo := Some(talent), claimedAt := Some(now))
  }

  /**
    `assign_task`: one matching scan for the task; with a talent (a non-empty
    id, since an empty one is falsy) the fresh record is written over the
    task's fields, else the task is not written.
  */
  method AssignTask(store: Store, taskId: string, now: Time)
    modifies store
    ensures var r := NextAvailable(old(LoadTask(store, taskId)), old(store.talents));
      && store.talents == ClaimResult(old(store.talents), r)
      && (r.None? || r.value == "" ==> store.tasks == old(store.tasks))
      && (r.Some? && r.value != "" ==>
            store.tasks == old(store.tasks)[taskId := old(store.TaskHash(taskId)) + ToRedisFields(AssignedTask(taskId, r.value, now))]
            && LoadTask(store, taskId) == Some(Normalized(AssignedTask(taskId, r.value, now))))
    ensures store.active == old(store.active)
  {
    var talentId := GetNextAvailable(store, taskId);
    if talentId.Some? && talentId.value != "" {
      var task := AssignedTask(taskId, talentId.value, now);
      var _ := SaveTask(store, task);
    }
  }

  /**
    What the assignment leaves behind: the task reads back as a fresh task
    bound to the talent and claimed now, with status "unassigned", no
    deadline, no history and no candidates, so a later scan for it finds no
    talent.
  */
  lemma AssignmentResetsTask(taskId: string, h: Hash, talent: string, now: Time, talents: map<string, Hash>)
    ensures var t := FromRedis(taskId, h + ToRedisFields(AssignedTask(taskId, talent, now)));
      && t.Some? && t.value.assignedTo == Some(talent) && t.value.claimedAt == Some(now)
      && t.value.status == UNASSIGNED && t.value.matches == [] && t.value.extensions == []
      && t.value.deadline.None? && t.value.dueDate.None? && t.value.extensionStatus == NONE
      && NextAvailable(t, talents).None?
  {
    LoadAfterSave(AssignedTask(taskId, talent, now), h);
  }
}
