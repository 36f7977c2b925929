/**
  The deadline sweep `check_deadlines` (tasks/monitoring.py): every task
  whose deadline score has passed is examined once; a pending extension is
  handed to evaluation, a rejected or overdue assigned task is moved to
  "reassigning" and handed to reassignment, anything else is left alone.
*/
module Monitoring {
  import opened Wrappers
  import opened RedisStore
  import opened TaskModel
  import opened Jobs

  /**
    `zrangebyscore("assignments:active", 0, now)` with scores: the entries
    whose score lies in [0, now], in the set's order, so again a sorted set.
  */
  function ExpiredEntries(active: SortedSet, now: Time): (r: SortedSet)
    ensures |r| <= |active|
    ensures forall e :: e in r <==> e in active && 0 <= e.score <= now
  {
    if active == [] then []
    else
      var rest := ExpiredEntries(active[1..], now);
      assert forall e | e in active[1..] :: e in active;
      assert forall e | e in active :: e == active[0] || e in active[1..];
      if 0 <= active[0].score <= now then
        PrependSorted(active, rest);
        [active[0]] + rest
      else rest
  }

  /** The head of a sorted set comes before anything taken from its tail. */
  lemma PrependSorted(active: SortedSet, rest: SortedSet)
    requires active != [] && forall e | e in rest :: e in active[1..]
    ensures IsSortedSet([active[0]] + rest)
  {
    var s := [active[0]] + rest;
    forall j | 0 < j < |s|
      ensures s[0].member != s[j].member && s[0].score <= s[j].score
    {
      assert s[j] in active[1..];
      var k :| 0 <= k < |active| - 1 && active[1..][k] == s[j];
      assert active[k + 1] == s[j];
    }
    forall i, j | 0 < i < j < |s|
      ensures s[i].member != s[j].member && s[i].score <= s[j].score
    {
      assert s[i] == rest[i - 1] && s[j] == rest[j - 1];
    }
  }

  /**
    The members `zrangebyscore("assignments:active", 0, now)` returns: those
    of `ExpiredEntries`, in ascending score order, each once.
  */
  function Expired(active: SortedSet, now: Time): (ids: seq<string>)
    ensures |ids| == |ExpiredEntries(active, now)| <= |active|
    ensures forall i | 0 <= i < |ids| :: ids[i] == ExpiredEntries(active, now)[i].member
    ensures forall id :: id in ids <==> exists e | e in active :: e.member == id && 0 <= e.score <= now
    ensures forall i, j | 0 <= i < j < |ids| :: ids[i] != ids[j]
  {
    var es := ExpiredEntries(active, now);
    var ids := seq(|es|, i requires 0 <= i < |es| => es[i].member);
    assert forall id :: id in ids <==> exists e | e in es :: e.member == id by {
      forall id ensures id in ids <==> exists e | e in es :: e.member == id {
        if id in ids {
          var i :| 0 <= i < |ids| && ids[i] == id;
          assert es[i] in es;
        }
        if exists e | e in es :: e.member == id {
          var e :| e in es && e.member == id;
          var i :| 0 <= i < |es| && es[i] == e;
          assert ids[i] == id;
        }
      }
    }
    ids
  }

  /** What the sweep does with one loaded task. */
  datatype Decision = EvaluatePending | MoveToReassigning | NoAction

  /** A pending extension comes first; then a rejected task, or an assigned one that is overdue, moves on. */
  function Decide(t: Task, now: Time): (d: Decision)
    ensures d == EvaluatePending <==> t.extensionStatus == PENDING
    ensures d == MoveToReassigning <==>
              t.extensionStatus != PENDING && (t.status == REJECTED || (t.status == ASSIGNED && IsOverdue(t, now)))
  {
    if t.extensionStatus == PENDING then EvaluatePending
    else if t.status == REJECTED || (t.status == ASSIGNED && IsOverdue(t, now)) then MoveToReassigning
    else NoAction
  }

  /**
    One iteration of the sweep on the task hashes: a missing task is skipped;
    a pending extension dispatches an evaluation and writes nothing; a move
    saves the task with status "reassigning" and dispatches a reassignment.
  */
  function SweepStep(tasks: map<string, Hash>, id: string, now: Time): (r: (map<string, Hash>, seq<Dispatch>))
    ensures forall other | other != id :: HashOf(r.0, other) == HashOf(tasks, other)
    ensures FromRedis(id, HashOf(tasks, id)).None? ==> r == (tasks, [])
    ensures FromRedis(id, HashOf(tasks, id)).Some? && FromRedis(id, HashOf(tasks, id)).value.extensionStatus == PENDING
            ==> r == (tasks, [EvaluateExtensionJob(id)])
    ensures FromRedis(id, HashOf(tasks, id)).Some? && Decide(FromRedis(id, HashOf(tasks, id)).value, now) == NoAction
            ==> r == (tasks, [])
    ensures r.0 != tasks ==> r.1 == [ReassignJob(id)]
  {
    match FromRedis(id, HashOf(tasks, id))
    case None => (tasks, [])
    case Some(t) =>
      match Decide(t, now)
      case EvaluatePending => (tasks, [EvaluateExtensionJob(id)])
      case NoAction => (tasks, [])
      case MoveToReassigning =>
        (tasks[id := HashOf(tasks, id) + ToRedisFields(t.(status := REASSIGNING))], [ReassignJob(id)])
  }

  /** The sweep over `ids`, left to right: the final task hashes and the jobs dispatched. */
  function Sweep(tasks: map<string, Hash>, ids: seq<string>, now: Time): (map<string, Hash>, seq<Dispatch>)
  {
    if ids == [] then (tasks, [])
    else
      var (tasks1, jobs1) := Sweep(tasks, ids[..|ids| - 1], now);
      var (tasks2, jobs2) := SweepStep(tasks1, ids[|ids| - 1], now);
      (tasks2, jobs1 + jobs2)
  }

  /**
    `check_deadlines`: examines each expired id in turn and acts on it as
    `SweepStep` says; talents and the active set are not written.
  */
  method CheckDeadlines(store: Store, now: Time) returns (dispatched: seq<Dispatch>)
    modifies store
    ensures (store.tasks, dispatched) == Sweep(old(store.tasks), Expired(old(store.active), now), now)
    ensures store.talents == old(store.talents) && store.active == old(store.active)
  {
    var expired := Expired(store.active, now);
    dispatched := [];
    var i := 0;
    while i < |expired|
      invariant 0 <= i <= |expired|
      invariant (store.tasks, dispatched) == Sweep(old(store.tasks), expired[..i], now)
      invariant store.talents == old(store.talents) && store.active == old(store.active)
    {
      var taskId := expired[i];
      ghost var tasks0, dispatched0 := store.tasks, dispatched;
      var task := LoadTask(store, taskId);
      if task.Some? {
        var t := task.value;
        if t.extensionStatus == PENDING {
          dispatched := dispatched + [EvaluateExtensionJob(taskId)];
        } else if t.status == REJECTED || (t.status == ASSIGNED && IsOverdue(t, now)) {
          SweepStepMove(tasks0, taskId, now, t);
          t := t.(status := REASSIGNING);
          var _ := SaveTask(store, t);
          dispatched := dispatched + [ReassignJob(taskId)];
          assert store.tasks == SweepStep(tasks0, taskId, now).0;
        } else {
          assert Decide(t, now) == NoAction;
        }
      }
      assert store.tasks == SweepStep(tasks0, taskId, now).0;
      assert dispatched == dispatched0 + SweepStep(tasks0, taskId, now).1;
      SweepOneMore(old(store.tasks), expired, i, now);
      assert (store.tasks, dispatched) == Sweep(old(store.tasks), expired[..i + 1], now);
      i := i + 1;
    }
    assert expired[..|expired|] == expired;
  }

  /** Sweeping one more id of `ids` adds that id's step. */
  lemma SweepOneMore(tasks: map<string, Hash>, ids: seq<string>, i: nat, now: Time)
    requires i < |ids|
    ensures var (tasks1, jobs1) := Sweep(tasks, ids[..i], now);
      Sweep(tasks, ids[..i + 1], now) == (SweepStep(tasks1, ids[i], now).0, jobs1 + SweepStep(tasks1, ids[i], now).1)
  {
    assert ids[..i + 1][..i] == ids[..i];
  }

  lemma SweepStepMove(tasks: map<string, Hash>, id: string, now: Time, t: Task)
    requires FromRedis(id, HashOf(tasks, id)) == Some(t) && Decide(t, now) == MoveToReassigning
    ensures SweepStep(tasks, id, now)
         == (tasks[id := HashOf(tasks, id) + ToRedisFields(t.(status := REASSIGNING))], [ReassignJob(id)])
  {
  }

  /** A move rewrites the record with status "reassigning" and otherwise only normalises it. */
  lemma MoveChangesOnlyStatus(tasks: map<string, Hash>, id: string, now: Time, t: Task)
    requires FromRedis(id, HashOf(tasks, id)) == Some(t) && Decide(t, now) == MoveToReassigning
    ensures SweepStep(tasks, id, now).1 == [ReassignJob(id)]
    ensures FromRedis(id, HashOf(SweepStep(tasks, id, now).0, id)) == Some(Normalized(t).(status := REASSIGNING))
  {
    LoadAfterSave(t.(status := REASSIGNING), HashOf(tasks, id));
  }

  // ---------------------------------------------------------------------------
  // Re-sweeping

  /** A task hash the sweep does not write. */
  predicate Quiet(h: Hash, id: string, now: Time) {
    FromRedis(id, h).None? || Decide(FromRedis(id, h).value, now) != MoveToReassigning
  }

  /** After its step, a task is quiet: a moved task is "reassigning" and stays put. */
  lemma StepSettles(tasks: map<string, Hash>, id: string, now: Time)
    ensures Quiet(HashOf(SweepStep(tasks, id, now).0, id), id, now)
  {
    var h := HashOf(tasks, id);
    if FromRedis(id, h).Some? && Decide(FromRedis(id, h).value, now) == MoveToReassigning {
      MoveChangesOnlyStatus(tasks, id, now, FromRedis(id, h).value);
    }
  }

  lemma QuietStep(tasks: map<string, Hash>, id: string, now: Time)
    requires Quiet(HashOf(tasks, id), id, now)
    ensures SweepStep(tasks, id, now).0 == tasks
    ensures forall d | d in SweepStep(tasks, id, now).1 :: d.EvaluateExtensionJob?
  {
  }

  /** After a sweep every swept task is quiet. */
  lemma {:induction false} SweepSettles(tasks: map<string, Hash>, ids: seq<string>, now: Time)
    ensures forall id | id in ids :: Quiet(HashOf(Sweep(tasks, ids, now).0, id), id, now)
  {
    if ids != [] {
      var prefix := ids[..|ids| - 1];
      var last := ids[|ids| - 1];
      var tasks1 := Sweep(tasks, prefix, now).0;
      SweepSettles(tasks, prefix, now);
      StepSettles(tasks1, last, now);
      forall id | id in ids
        ensures Quiet(HashOf(Sweep(tasks, ids, now).0, id), id, now)
      {
        if id != last {
          assert id in prefix by {
            var k :| 0 <= k < |ids| && ids[k] == id;
            assert prefix[k] == id;
          }
        }
      }
    }
  }

  /** A sweep over quiet tasks writes nothing and dispatches only evaluations. */
  lemma {:induction false} QuietSweep(tasks: map<string, Hash>, ids: seq<string>, now: Time)
    requires forall id | id in ids :: Quiet(HashOf(tasks, id), id, now)
    ensures Sweep(tasks, ids, now).0 == tasks
    ensures forall d | d in Sweep(tasks, ids, now).1 :: d.EvaluateExtensionJob?
  {
    if ids != [] {
      var prefix := ids[..|ids| - 1];
      var last := ids[|ids| - 1];
      assert forall id | id in prefix :: id in ids;
      QuietSweep(tasks, prefix, now);
      QuietStep(tasks, last, now);
    }
  }

  /**
    Sweeping again over the same ids writes nothing more: the second pass at
    most re-dispatches evaluations of pending extensions.
  */
  lemma SweepIdempotent(tasks: map<string, Hash>, ids: seq<string>, now: Time)
    ensures Sweep(Sweep(tasks, ids, now).0, ids, now).0 == Sweep(tasks, ids, now).0
    ensures forall d | d in Sweep(Sweep(tasks, ids, now).0, ids, now).1 :: d.EvaluateExtensionJob?
  {
    SweepSettles(tasks, ids, now);
    QuietSweep(Sweep(tasks, ids, now).0, ids, now);
  }

  // ---------------------------------------------------------------------------
  // Each task on its own

  /** A step's effect on its own task depends only on that task's hash. */
  lemma StepLocal(tasks1: map<string, Hash>, tasks2: map<string, Hash>, id: string, now: Time)
    requires HashOf(tasks1, id) == HashOf(tasks2, id)
    ensures HashOf(SweepStep(tasks1, id, now).0, id) == HashOf(SweepStep(tasks2, id, now).0, id)
    ensures SweepStep(tasks1, id, now).1 == SweepStep(tasks2, id, now).1
  {
  }

  /**
    Over distinct ids (members of a sorted set are), the sweep treats each
    expired task as if it were alone, and leaves every other task as it was.
  */
  lemma {:induction false} SweepPointwise(tasks: map<string, Hash>, ids: seq<string>, now: Time, id: string)
    requires forall i, j | 0 <= i < j < |ids| :: ids[i] != ids[j]
    ensures id in ids ==> HashOf(Sweep(tasks, ids, now).0, id) == HashOf(SweepStep(tasks, id, now).0, id)
    ensures id !in ids ==> HashOf(Sweep(tasks, ids, now).0, id) == HashOf(tasks, id)
  {
    if ids != [] {
      var prefix := ids[..|ids| - 1];
      var last := ids[|ids| - 1];
      var tasks1 := Sweep(tasks, prefix, now).0;
      SweepPointwise(tasks, prefix, now, id);
      if id == last {
        assert id !in prefix;
        StepLocal(tasks1, tasks, id, now);
      } else {
        assert id in ids <==> id in prefix by {
          if id in ids {
            var k :| 0 <= k < |ids| && ids[k] == id;
            assert prefix[k] == id;
          }
        }
      }
    }
  }

  /**
    In `check_deadlines` each expired task is handled as if it were swept
    alone, and a task that has not expired is left as it was: the members of
    the active set are distinct.
  */
  lemma ExpiredTasksHandledAlone(tasks: map<string, Hash>, active: SortedSet, now: Time, id: string)
    ensures var ids := Expired(active, now);
      && (id in ids ==> HashOf(Sweep(tasks, ids, now).0, id) == HashOf(SweepStep(tasks, id, now).0, id))
      && (id !in ids ==> HashOf(Sweep(tasks, ids, now).0, id) == HashOf(tasks, id))
  {
    SweepPointwise(tasks, Expired(active, now), now, id);
  }
}
