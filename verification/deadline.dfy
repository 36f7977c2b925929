/**
  `DeadlineService` and `ExtensionService` (domain/services/deadline.py):
  the 24-hour deadline, the extension request with its append-only history,
  and the application of an evaluator's verdict. The evaluator stands for
  the language-model client and is a parameter; `now` stands for the clock.
*/
module Deadline {
  import opened Wrappers
  import opened RedisStore
  import opened TaskModel
  import Gemini

  // ---------------------------------------------------------------------------
  // `set_initial_deadline`

  /** The two fields `set_initial_deadline` writes, both a day from `now`. */
  function DeadlineFields(now: Time): Hash {
    map[DEADLINE := FormatTime(now + GRACE), DUE_DATE := FormatTime(now + GRACE)]
  }

  /** On a stored task, the deadline write sets deadline and due date to now + 24h and nothing else. */
  lemma InitialDeadlineEffect(taskId: string, h: Hash, t: Task, now: Time)
    requires FromRedis(taskId, h) == Some(t)
    ensures FromRedis(taskId, h + DeadlineFields(now))
         == Some(t.(deadline := Some(now + GRACE), dueDate := Some(now + GRACE)))
  {
    assert t.taskId == taskId;
    DeadlineFieldsAgree(t, now);
    WriteDecodes(h, DeadlineFields(now), t, t.(deadline := Some(now + GRACE), dueDate := Some(now + GRACE)));
  }

  lemma DeadlineFieldsAgree(t: Task, now: Time)
    ensures WriteAgrees(DeadlineFields(now), t, t.(deadline := Some(now + GRACE), dueDate := Some(now + GRACE)))
  {
    DecodeDateOf(DeadlineFields(now), DEADLINE, Some(now + GRACE));
    DecodeDateOf(DeadlineFields(now), DUE_DATE, Some(now + GRACE));
  }

  /** `DeadlineService.set_initial_deadline`: one write of the deadline fields. */
  method SetInitialDeadline(store: Store, taskId: string, now: Time) returns (ok: bool)
    modifies store
    ensures ok
    ensures store.tasks == old(store.tasks)[taskId := old(store.TaskHash(taskId)) + DeadlineFields(now)]
    ensures store.talents == old(store.talents) && store.active == old(store.active)
  {
    store.HSetTask(taskId, DeadlineFields(now));
    ok := true;
  }

  // ---------------------------------------------------------------------------
  // The stored history

  /** `json.loads(extensions) if extensions else []`: an absent or empty field is the empty history. */
  function HistoryOf(h: Hash): (r: Option<seq<Extension>>)
    ensures (EXTENSIONS !in h || h[EXTENSIONS] == "") ==> r == Some([])
  {
    var text := Get(h, EXTENSIONS).GetOr("");
    if text == "" then Some([]) else DecodeExtensions(text)
  }

  /** The write of a whole history. */
  function HistoryFields(es: seq<Extension>): Hash {
    map[EXTENSIONS := EncodeExtensions(es)]
  }

  lemma HistoryOfWritten(h: Hash, es: seq<Extension>)
    ensures HistoryOf(h + HistoryFields(es)) == Some(es)
  {
    DecodeExtensionsOf(es);
  }

  /** The history of a stored task is the history its record holds. */
  lemma HistoryOfLoaded(taskId: string, h: Hash, t: Task)
    requires FromRedis(taskId, h) == Some(t)
    ensures HistoryOf(h) == Some(t.extensions)
  {
    EmptyHistoryText();
  }

  // ---------------------------------------------------------------------------
  // `request_extension`

  /** The three status fields a request writes first. */
  function RequestFields(now: Time): Hash {
    map[EXTENSION_STATUS := PENDING, EXTENSION_REQUESTED_AT := FormatTime(now), STATUS := EXTENSION_REQUESTED]
  }

  /** The history entry a request appends: not yet judged. */
  function NewRequest(reason: string, now: Time): Extension {
    Extension(FormatTime(now), reason, None, None)
  }

  /**
    The task hash after `request_extension`, and its result: the status
    fields are always written; when the stored history decodes, one entry
    is appended to it and the request succeeds, else it fails with the
    status fields already written.
  */
  function RequestedHash(h: Hash, reason: string, now: Time): (r: (Hash, bool))
    ensures r.1 <==> HistoryOf(h).Some?
    ensures !r.1 ==> r.0 == h + RequestFields(now)
    ensures r.1 ==> HistoryOf(r.0) == Some(HistoryOf(h).value + [NewRequest(reason, now)])
    ensures forall f | f in RequestFields(now) :: f in r.0 && r.0[f] == RequestFields(now)[f]
  {
    var h1 := h + RequestFields(now);
    assert Get(h1, EXTENSIONS) == Get(h, EXTENSIONS);
    match HistoryOf(h1)
    case None => (h1, false)
    case Some(es) =>
      HistoryOfWritten(h1, es + [NewRequest(reason, now)]);
      (h1 + HistoryFields(es + [NewRequest(reason, now)]), true)
  }

  /**
    `ExtensionService.request_extension`: writes the status fields, then
    reads the history back, appends the new entry and writes it.
  */
  method RequestExtension(store: Store, taskId: string, reason: string, now: Time) returns (ok: bool)
    modifies store
    ensures ok == RequestedHash(old(store.TaskHash(taskId)), reason, now).1
    ensures store.tasks == old(store.tasks)[taskId := RequestedHash(old(store.TaskHash(taskId)), reason, now).0]
    ensures store.talents == old(store.talents) && store.active == old(store.active)
  {
    ghost var h := store.TaskHash(taskId);
    store.HSetTask(taskId, RequestFields(now));
    assert store.TaskHash(taskId) == h + RequestFields(now);
    var history := HistoryOf(store.TaskHash(taskId));
    if history.None? {
      assert RequestedHash(h, reason, now) == (h + RequestFields(now), false);
      return false;
    }
    store.HSetTask(taskId, HistoryFields(history.value + [NewRequest(reason, now)]));
    assert RequestedHash(h, reason, now) == (h + RequestFields(now) + HistoryFields(history.value + [NewRequest(reason, now)]), true);
    return true;
  }

  lemma HistoryFieldsAgree(t: Task, es: seq<Extension>)
    ensures WriteAgrees(HistoryFields(es), t, t.(extensions := es))
  {
    DecodeExtensionsOf(es);
  }

  /** Writing a whole history to a stored task changes only its history. */
  lemma HistoryWriteDecodes(h: Hash, t: Task, es: seq<Extension>)
    requires FromRedis(t.taskId, h) == Some(t)
    ensures FromRedis(t.taskId, h + HistoryFields(es)) == Some(t.(extensions := es))
  {
    HistoryFieldsAgree(t, es);
    WriteDecodes(h, HistoryFields(es), t, t.(extensions := es));
  }

  lemma RequestFieldsAgree(t: Task, now: Time)
    ensures WriteAgrees(RequestFields(now), t,
      t.(status := EXTENSION_REQUESTED, extensionStatus := PENDING, extensionRequestedAt := Some(now)))
  {
    DecodeDateOf(RequestFields(now), EXTENSION_REQUESTED_AT, Some(now));
  }

  lemma RequestedHashOf(h: Hash, reason: string, now: Time, es: seq<Extension>)
    requires HistoryOf(h) == Some(es)
    ensures RequestedHash(h, reason, now) == (h + RequestFields(now) + HistoryFields(es + [NewRequest(reason, now)]), true)
  {
    assert Get(h + RequestFields(now), EXTENSIONS) == Get(h, EXTENSIONS);
  }

  /**
    On a stored task a request always succeeds, also when a request is
    already pending: status and extension status become "extension_requested"
    and "pending", the request time is now, and exactly one unjudged entry
    is appended to the history, earlier entries unchanged.
  */
  lemma RequestExtensionEffect(taskId: string, h: Hash, t: Task, reason: string, now: Time)
    requires FromRedis(taskId, h) == Some(t)
    ensures RequestedHash(h, reason, now).1
    ensures FromRedis(taskId, RequestedHash(h, reason, now).0)
         == Some(t.(status := EXTENSION_REQUESTED, extensionStatus := PENDING,
                    extensionRequestedAt := Some(now),
                    extensions := t.extensions + [NewRequest(reason, now)]))
  {
    HistoryOfLoaded(taskId, h, t);
    var es := t.extensions + [NewRequest(reason, now)];
    RequestedHashOf(h, reason, now, t.extensions);
    var t1 := t.(status := EXTENSION_REQUESTED, extensionStatus := PENDING, extensionRequestedAt := Some(now));
    RequestFieldsAgree(t, now);
    WriteDecodes(h, RequestFields(now), t, t1);
    HistoryWriteDecodes(h + RequestFields(now), t1, es);
  }

  // ---------------------------------------------------------------------------
  // `evaluate_extension`

  const REJECTED_BY_AI := "Rejected by AI"

  /** `evaluation.reason or "Rejected by AI"`. */
  function RejectionReason(ev: Gemini.Evaluation): (r: string)
    ensures r != ""
    ensures ev.reason != "" ==> r == ev.reason
    ensures ev.reason == "" ==> r == REJECTED_BY_AI
  {
    if ev.reason == "" then REJECTED_BY_AI else ev.reason
  }

  /** The fields an approval writes. */
  function ApproveFields(now: Time): Hash {
    map[STATUS := ASSIGNED,
        DUE_DATE := FormatTime(now + GRACE),
        DEADLINE := FormatTime(now + GRACE),
        EXTENSION_STATUS := APPROVED,
        EXTENSION_REQUESTED_AT := FormatTime(now),
        EXTENSION_REJECTION_REASON := ""]
  }

  /** The fields a rejection writes. */
  function RejectFields(reason: string): Hash {
    map[EXTENSION_STATUS := REJECTED, EXTENSION_REJECTION_REASON := reason, STATUS := REASSIGNING]
  }

  function VerdictFields(ev: Gemini.Evaluation, now: Time): Hash {
    if ev.approved then ApproveFields(now) else RejectFields(RejectionReason(ev))
  }

  /** The latest history entry with the verdict recorded on it. */
  function Judged(e: Extension, ev: Gemini.Evaluation): (r: Extension)
    ensures r.requestedAt == e.requestedAt && r.reason == e.reason
    ensures r.approved == Some(ev.approved)
    ensures !ev.approved ==> r.rejectionReason == Some(RejectionReason(ev))
    ensures ev.approved ==> r.rejectionReason == e.rejectionReason
  {
    if ev.approved then e.(approved := Some(true))
    else e.(approved := Some(false), rejectionReason := Some(RejectionReason(ev)))
  }

  /**
    The task hash after `evaluate_extension`, and its result. Nothing is
    written, and the result is false, when the history does not decode, is
    empty, or the evaluator gives no verdict on the latest request; else the
    verdict's fields are written and only the latest history entry changes.
  */
  function EvaluatedHash(h: Hash, evaluator: string -> Option<Gemini.Evaluation>, now: Time): (r: (Hash, bool))
    ensures !r.1 ==> r.0 == h
    ensures r.1 <==> HistoryOf(h).Some? && HistoryOf(h).value != []
                     && evaluator(HistoryOf(h).value[|HistoryOf(h).value| - 1].reason).Some?
  {
    match HistoryOf(h)
    case None => (h, false)
    case Some(es) =>
      if es == [] then (h, false)
      else
        var latest := es[|es| - 1];
        match evaluator(latest.reason)
        case None => (h, false)
        case Some(ev) =>
          (h + VerdictFields(ev, now) + HistoryFields(es[|es| - 1 := Judged(latest, ev)]), true)
  }

  /**
    The writes of `evaluate_extension` once a verdict is in: the approval's
    fields or the rejection's (with the verdict's reason), then the history
    with the verdict recorded on its latest entry.
  */
  method RecordVerdict(store: Store, taskId: string, es: seq<Extension>, ev: Gemini.Evaluation, now: Time)
    requires es != []
    modifies store
    ensures store.tasks == old(store.tasks)[taskId := old(store.TaskHash(taskId)) + VerdictFields(ev, now)
                                                        + HistoryFields(es[|es| - 1 := Judged(es[|es| - 1], ev)])]
    ensures store.talents == old(store.talents) && store.active == old(store.active)
  {
    ghost var tasks0, h := store.tasks, store.TaskHash(taskId);
    var latest := es[|es| - 1];
    if ev.approved {
      store.HSetTask(taskId, ApproveFields(now));
      latest := latest.(approved := Some(true));
    } else {
      var reason := RejectionReason(ev);
      store.HSetTask(taskId, RejectFields(reason));
      latest := latest.(approved := Some(false), rejectionReason := Some(reason));
    }
    assert store.tasks == tasks0[taskId := h + VerdictFields(ev, now)];
    assert latest == Judged(es[|es| - 1], ev);
    store.HSetTask(taskId, HistoryFields(es[|es| - 1 := latest]));
  }

  /**
    `ExtensionService.evaluate_extension`: reads the history, asks the
    evaluator about the latest request, writes the verdict's fields, records
    the verdict on the latest entry and writes the history back.
  */
  method EvaluateExtension(store: Store, taskId: string,
                           evaluator: string -> Option<Gemini.Evaluation>, now: Time) returns (ok: bool)
    modifies store
    ensures ok == EvaluatedHash(old(store.TaskHash(taskId)), evaluator, now).1
    ensures !ok ==> store.tasks == old(store.tasks)
    ensures ok ==> store.tasks == old(store.tasks)[taskId := EvaluatedHash(old(store.TaskHash(taskId)), evaluator, now).0]
    ensures store.talents == old(store.talents) && store.active == old(store.active)
  {
    ghost var h := store.TaskHash(taskId);
    var history := HistoryOf(store.TaskHash(taskId));
    if history.None? || history.value == [] {
      assert !EvaluatedHash(h, evaluator, now).1;
      return false;
    }
    var extensions := history.value;
    var latest := extensions[|extensions| - 1];
    var evaluation := evaluator(latest.reason);
    if evaluation.None? {
      assert !EvaluatedHash(h, evaluator, now).1;
      return false;
    }
    EvaluatedHashOf(h, evaluator, now, extensions, evaluation.value);
    RecordVerdict(store, taskId, extensions, evaluation.value, now);
    return true;
  }

  /** A verdict changes only the latest history entry; the history keeps its length. */
  lemma EvaluationKeepsHistory(h: Hash, evaluator: string -> Option<Gemini.Evaluation>, now: Time)
    requires EvaluatedHash(h, evaluator, now).1
    ensures HistoryOf(EvaluatedHash(h, evaluator, now).0).Some?
    ensures var es := HistoryOf(h).value;
      var es' := HistoryOf(EvaluatedHash(h, evaluator, now).0).value;
      |es'| == |es| && es'[..|es| - 1] == es[..|es| - 1]
      && es'[|es| - 1] == Judged(es[|es| - 1], evaluator(es[|es| - 1].reason).value)
  {
    var es := HistoryOf(h).value;
    var ev := evaluator(es[|es| - 1].reason).value;
    var es' := es[|es| - 1 := Judged(es[|es| - 1], ev)];
    EvaluatedHashOf(h, evaluator, now, es, ev);
    HistoryOfWritten(h + VerdictFields(ev, now), es');
    assert HistoryOf(EvaluatedHash(h, evaluator, now).0) == Some(es');
    assert es'[..|es| - 1] == es[..|es| - 1];
  }

  lemma EvaluatedHashOf(h: Hash, evaluator: string -> Option<Gemini.Evaluation>, now: Time,
                        es: seq<Extension>, ev: Gemini.Evaluation)
    requires HistoryOf(h) == Some(es) && es != [] && evaluator(es[|es| - 1].reason) == Some(ev)
    ensures EvaluatedHash(h, evaluator, now)
         == (h + VerdictFields(ev, now) + HistoryFields(es[|es| - 1 := Judged(es[|es| - 1], ev)]), true)
  {
  }

  lemma ApproveFieldsAgree(t: Task, now: Time)
    ensures WriteAgrees(ApproveFields(now), t,
      t.(status := ASSIGNED, deadline := Some(now + GRACE), dueDate := Some(now + GRACE),
         extensionStatus := APPROVED, extensionRequestedAt := Some(now), extensionRejectionReason := Some("")))
  {
    DecodeDateOf(ApproveFields(now), DEADLINE, Some(now + GRACE));
    DecodeDateOf(ApproveFields(now), DUE_DATE, Some(now + GRACE));
    DecodeDateOf(ApproveFields(now), EXTENSION_REQUESTED_AT, Some(now));
  }

  /** The approval's status fields on a stored task decode to the approved task. */
  lemma ApprovedFieldsDecode(taskId: string, h: Hash, t: Task, now: Time)
    requires FromRedis(taskId, h) == Some(t)
    ensures FromRedis(taskId, h + ApproveFields(now))
         == Some(t.(status := ASSIGNED, deadline := Some(now + GRACE), dueDate := Some(now + GRACE),
                    extensionStatus := APPROVED, extensionRequestedAt := Some(now),
                    extensionRejectionReason := Some("")))
  {
    assert t.taskId == taskId;
    ApproveFieldsAgree(t, now);
    WriteDecodes(h, ApproveFields(now), t, t.(status := ASSIGNED, deadline := Some(now + GRACE), dueDate := Some(now + GRACE),
                                               extensionStatus := APPROVED, extensionRequestedAt := Some(now),
                                               extensionRejectionReason := Some("")));
  }

  /** The approval's fields and then a new history, written to a stored task, decode as such. */
  lemma ApprovedDecodes(taskId: string, h: Hash, t: Task, es: seq<Extension>, now: Time)
    requires FromRedis(taskId, h) == Some(t)
    ensures FromRedis(taskId, h + ApproveFields(now) + HistoryFields(es))
         == Some(t.(status := ASSIGNED, deadline := Some(now + GRACE), dueDate := Some(now + GRACE),
                    extensionStatus := APPROVED, extensionRequestedAt := Some(now),
                    extensionRejectionReason := Some(""), extensions := es))
  {
    var t1 := t.(status := ASSIGNED, deadline := Some(now + GRACE), dueDate := Some(now + GRACE),
                 extensionStatus := APPROVED, extensionRequestedAt := Some(now),
                 extensionRejectionReason := Some(""));
    ApprovedFieldsDecode(taskId, h, t, now);
    assert t1.taskId == taskId;
    HistoryWriteDecodes(h + ApproveFields(now), t1, es);
  }

  lemma RejectFieldsAgree(t: Task, reason: string)
    ensures WriteAgrees(RejectFields(reason), t,
      t.(status := REASSIGNING, extensionStatus := REJECTED, extensionRejectionReason := Some(reason)))
  {
  }

  /**
    An approval on a stored task: status "assigned", deadline and due date
    both now + 24h (whatever they were before), extension status "approved",
    request time now, rejection reason "", and the latest entry approved.
  */
  lemma ApprovalEffect(taskId: string, h: Hash, t: Task, evaluator: string -> Option<Gemini.Evaluation>,
                       ev: Gemini.Evaluation, now: Time)
    requires FromRedis(taskId, h) == Some(t) && t.extensions != []
    requires evaluator(t.extensions[|t.extensions| - 1].reason) == Some(ev) && ev.approved
    ensures EvaluatedHash(h, evaluator, now).1
    ensures FromRedis(taskId, EvaluatedHash(h, evaluator, now).0)
         == Some(t.(status := ASSIGNED, deadline := Some(now + GRACE), dueDate := Some(now + GRACE),
                    extensionStatus := APPROVED, extensionRequestedAt := Some(now),
                    extensionRejectionReason := Some(""),
                    extensions := t.extensions[|t.extensions| - 1 :=
                      t.extensions[|t.extensions| - 1].(approved := Some(true))]))
  {
    HistoryOfLoaded(taskId, h, t);
    var es' := t.extensions[|t.extensions| - 1 := Judged(t.extensions[|t.extensions| - 1], ev)];
    assert es' == t.extensions[|t.extensions| - 1 := t.extensions[|t.extensions| - 1].(approved := Some(true))];
    EvaluatedHashOf(h, evaluator, now, t.extensions, ev);
    ApprovedDecodes(taskId, h, t, es', now);
  }

  /**
    A rejection on a stored task: extension status "rejected", status
    "reassigning", the rejection reason the verdict's or "Rejected by AI",
    deadline and due date untouched, and the latest entry refused with the
    same reason.
  */
  lemma RejectionEffect(taskId: string, h: Hash, t: Task, evaluator: string -> Option<Gemini.Evaluation>,
                        ev: Gemini.Evaluation, now: Time)
    requires FromRedis(taskId, h) == Some(t) && t.extensions != []
    requires evaluator(t.extensions[|t.extensions| - 1].reason) == Some(ev) && !ev.approved
    ensures EvaluatedHash(h, evaluator, now).1
    ensures FromRedis(taskId, EvaluatedHash(h, evaluator, now).0)
         == Some(t.(status := REASSIGNING, extensionStatus := REJECTED,
                    extensionRejectionReason := Some(RejectionReason(ev)),
                    extensions := t.extensions[|t.extensions| - 1 :=
                      t.extensions[|t.extensions| - 1].(approved := Some(false),
                                                        rejectionReason := Some(RejectionReason(ev)))]))
  {
    HistoryOfLoaded(taskId, h, t);
    var es' := t.extensions[|t.extensions| - 1 := Judged(t.extensions[|t.extensions| - 1], ev)];
    EvaluatedHashOf(h, evaluator, now, t.extensions, ev);
    var reason := RejectionReason(ev);
    var t1 := t.(status := REASSIGNING, extensionStatus := REJECTED, extensionRejectionReason := Some(reason));
    RejectFieldsAgree(t, reason);
    WriteDecodes(h, RejectFields(reason), t, t1);
    HistoryWriteDecodes(h + RejectFields(reason), t1, es');
  }

  /** The fallback verdict, applied, rejects the request with its fixed reason. */
  lemma FallbackVerdictRejects(h: Hash, evaluator: string -> Option<Gemini.Evaluation>, now: Time)
    requires HistoryOf(h).Some? && HistoryOf(h).value != []
    requires evaluator(HistoryOf(h).value[|HistoryOf(h).value| - 1].reason) == Some(Gemini.FallbackEvaluation())
    ensures EvaluatedHash(h, evaluator, now).1
    ensures var h' := EvaluatedHash(h, evaluator, now).0;
      STATUS in h' && h'[STATUS] == REASSIGNING && EXTENSION_STATUS in h' && h'[EXTENSION_STATUS] == REJECTED
      && EXTENSION_REJECTION_REASON in h' && h'[EXTENSION_REJECTION_REASON] == "System could not process request"
  {
    var ev := Gemini.FallbackEvaluation();
    assert RejectFields(RejectionReason(ev)) == VerdictFields(ev, now);
    assert STATUS in RejectFields(RejectionReason(ev));
  }
}
