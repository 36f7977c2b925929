/**
  `reassign_task` (tasks/reassignment.py): a task in "reassigning" is bound
  to the next available talent and given a fresh deadline; with no talent
  available the job asks to be retried.
*/
module Reassignment {
  import opened Wrappers
  import opened RedisStore
  import opened TaskModel
  import opened Matching
  import opened Deadline

  /** The delay, in seconds, before a retried reassignment runs again. */
  const RETRY_COUNTDOWN: nat := 120

  /** How a reassignment job ends: refused, retried later, or bound to a talent. */
  datatype Outcome = NotEligible | RetryLater(countdown: nat) | Reassigned(talent: string)

  /** The fields bound in the task when a talent takes it over. */
  function BindFields(talent: string, now: Time): Hash {
    map[ASSIGNED_TO := talent, CLAIMED_AT := FormatTime(now), STATUS := ASSIGNED]
  }

  lemma BindFieldsAgree(t: Task, talent: string, now: Time)
    ensures WriteAgrees(BindFields(talent, now), t,
      t.(assignedTo := Some(talent), claimedAt := Some(now), status := ASSIGNED))
  {
    DecodeDateOf(BindFields(talent, now), CLAIMED_AT, Some(now));
  }

  /**
    On a stored task, the bind and the deadline write set the new talent,
    the claim time, status "assigned" and a deadline a day away; the history,
    the matches and the extension status are not written.
  */
  lemma ReassignEffect(taskId: string, h: Hash, t: Task, talent: string, now: Time)
    requires FromRedis(taskId, h) == Some(t)
    ensures FromRedis(taskId, h + BindFields(talent, now) + DeadlineFields(now))
         == Some(t.(assignedTo := Some(talent), claimedAt := Some(now), status := ASSIGNED,
                    deadline := Some(now + GRACE), dueDate := Some(now + GRACE)))
  {
    var t1 := t.(assignedTo := Some(talent), claimedAt := Some(now), status := ASSIGNED);
    BindFieldsAgree(t, talent, now);
    WriteDecodes(h, BindFields(talent, now), t, t1);
    InitialDeadlineEffect(taskId, h + BindFields(talent, now), t1, now);
  }

  /** A second claim of the same talent writes the same value again. */
  lemma ClaimTwice(talents: map<string, Hash>, id: string)
    ensures ClaimResult(ClaimResult(talents, Some(id)), Some(id)) == ClaimResult(talents, Some(id))
  {
    assert HashOf(talents, id) + CLAIMED + CLAIMED == HashOf(talents, id) + CLAIMED;
  }

  /**
    A reassignment goes to a talent that was available, is one of the task's
    candidates, and scores at least as high as every available candidate.
  */
  lemma PlanPicksBestAvailable(task: Option<Task>, talents: map<string, Hash>)
    requires Plan(task, talents).Reassigned?
    ensures task.Some? && task.value.status == REASSIGNING
    ensures IsAvailable(talents, Plan(task, talents).talent) && Plan(task, talents).talent != ""
    ensures exists x | x in task.value.matches ::
              (x.talent == Plan(task, talents).talent
               && forall y | y in task.value.matches && IsAvailable(talents, y.talent) :: y.score <= x.score)
  {
    NextAvailableIsBestAvailable(task, talents);
  }

  /** With no available candidate the job is retried and nothing is bound. */
  lemma PlanRetriesWhenNoneAvailable(task: Option<Task>, talents: map<string, Hash>)
    requires task.Some? && task.value.status == REASSIGNING
    requires forall y | y in task.value.matches :: !IsAvailable(talents, y.talent)
    ensures Plan(task, talents) == RetryLater(RETRY_COUNTDOWN)
  {
    if NextAvailable(task, talents).Some? {
      NextAvailableIsBestAvailable(task, talents);
    }
  }

  /**
    The writes of a successful reassignment: the task is bound to `talent`,
    the talent is marked unavailable (again), and the task gets a deadline a
    day away.
  */
  method BindTalent(store: Store, taskId: string, talent: string, now: Time)
    modifies store
    ensures store.tasks == old(store.tasks)[taskId := old(store.TaskHash(taskId)) + BindFields(talent, now) + DeadlineFields(now)]
    ensures store.talents == ClaimResult(old(store.talents), Some(talent))
    ensures store.active == old(store.active)
  {
    ghost var tasks0, h := store.tasks, store.TaskHash(taskId);
    store.HSetTask(taskId, BindFields(talent, now));
    store.HSetTalent(talent, CLAIMED);
    var _ := SetInitialDeadline(store, taskId, now);
    assert store.tasks == tasks0[taskId := h + BindFields(talent, now) + DeadlineFields(now)];
  }

  /**
    What `reassign_task` decides for the task as loaded and the talent hashes
    as they stand: refuse a missing task or one not in "reassigning"; retry
    when the scan yields no talent or an empty id, which is falsy; else bind
    the talent the scan claims.
  */
  function Plan(task: Option<Task>, talents: map<string, Hash>): Outcome {
    if task.None? || task.value.status != REASSIGNING then NotEligible
    else
      var r := NextAvailable(task, talents);
      if r.None? || r.value == "" then RetryLater(RETRY_COUNTDOWN) else Reassigned(r.value)
  }

  /**
    `reassign_task`: a missing task, or one not in "reassigning", is refused
    without a write. Otherwise the matching scan runs and claims its talent;
    when it yields no talent (or an empty id) the job is retried after 120
    seconds, with the task record unwritten. Else the task is bound to the
    talent, the talent stays marked unavailable, and the deadline is reset.
  */
  method ReassignTask(store: Store, taskId: string, now: Time) returns (out: Outcome)
    modifies store
    ensures out == Plan(old(LoadTask(store, taskId)), old(store.talents))
    ensures out.NotEligible? ==> store.talents == old(store.talents)
    ensures !out.NotEligible? ==>
              store.talents == ClaimResult(old(store.talents), NextAvailable(old(LoadTask(store, taskId)), old(store.talents)))
    ensures !out.Reassigned? ==> store.tasks == old(store.tasks)
    ensures out.Reassigned? ==>
              store.tasks == old(store.tasks)[taskId := old(store.TaskHash(taskId)) + BindFields(out.talent, now) + DeadlineFields(now)]
    ensures store.active == old(store.active)
  {
    var task := LoadTask(store, taskId);
    if task.None? || task.value.status != REASSIGNING {
      return NotEligible;
    }
    ghost var tasks0, talents0 := store.tasks, store.talents;
    ghost var r := NextAvailable(task, talents0);
    var newTalent := GetNextAvailable(store, taskId);
    assert newTalent == r && store.tasks == tasks0 && store.talents == ClaimResult(talents0, r);
    if newTalent.None? || newTalent.value == "" {
      return RetryLater(RETRY_COUNTDOWN);
    }
    var talent := newTalent.value;
    BindTalent(store, taskId, talent, now);
    ClaimTwice(talents0, talent);
    return Reassigned(talent);
  }
}
