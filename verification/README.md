# talent-match: task assignment, deadlines and extensions, in Dafny

This project models the core of talent-match, a service that assigns tasks to
freelance talents. The model covers:

- **Task and talent records.** Tasks and talents are Redis hashes of string fields.
  - A task decodes from its hash and encodes back (`Task.from_redis`, `to_redis`).
  - A talent carries an availability flag and a rating between 0 and 5.
- **Matching.** `MatchingService.get_next_available` visits a task's candidates in
  descending score order and claims the first available one by writing
  `available = "false"` to it. `get_best_match` picks a top-scoring candidate and
  ignores availability.
- **Jobs that bind a talent.** `assign_task` and `reassign_task` bind the matched
  talent to the task. Reassignment also gives the task a fresh 24-hour deadline.
- **Deadline and extension state machine.**
  - `DeadlineService.set_initial_deadline`.
  - `ExtensionService.request_extension`, which appends an entry to the request history.
  - `ExtensionService.evaluate_extension`, which applies the evaluator's verdict as
    an approval or a rejection.
  - The `check_deadlines` sweep, which sends a pending extension to evaluation,
    moves a rejected or overdue task to "reassigning", or leaves the task alone.
- **HTTP handlers.** `create_task`, `get_task`, `request_extension`,
  `process_extension` and `complete_task`, without the HTTP layer or the event stream.
- **Helpers.**
  - Validation of the language model's reply, and the fallback verdict.
  - The `retry` decorator's loop.
  - The task-payload validator.
  - The mock Slack client's message log.

How the model is organised:

- **Store.** The store is the class `RedisStore.Store`. It holds the task hashes, the
  talent hashes and the "assignments:active" sorted set. An `HSET` merges the written
  fields into a hash. The sorted set is a `RedisStore.SortedSet`: a sequence of
  (member, score) pairs in which no member repeats and scores never decrease, as
  `ZRANGEBYSCORE` lists them.
- **Handlers and jobs** are methods on the store. Each is proved against a
  specification function of the old state, such as `RequestedHash`, `EvaluatedHash`,
  `Sweep`, `Plan` or `ClaimResult`. Lemmas then give each of those functions its
  meaning on the decoded task, such as `RequestExtensionEffect`, `ApprovalEffect` and
  `MoveChangesOnlyStatus`.
- **Time and text formats.**
  - Time is whole seconds (`nat`) passed in as `now`.
  - Timestamps are written as decimal digits.
  - Lists and dictionaries stored in a field use a length-prefixed text format with
    a proved round trip. It stands in for `isoformat`/`fromisoformat` and
    `json.dumps`/`json.loads`. Like them, it rejects malformed text, including the
    empty string.
- **Outside collaborators.**
  - The AI evaluator is a function from the request's reason to an optional verdict.
  - The JSON decoder of the AI reply is a function parameter.
  - A Celery `.delay(task_id)` call becomes a returned `Jobs.Dispatch` value.
  - A Celery `self.retry(countdown=120)` call becomes the outcome `RetryLater(120)`.

Where the code does something other than what its comments or documentation
suggest, the model follows the code:

- A second extension request is accepted while one is pending.
- An approval sets the deadline to now + 24h, which can move it earlier.
- A reassignment keeps the extension status.
- `assign_task` replaces the task with a fresh record, so its status is "unassigned"
  and its candidates are gone.
- The re-check inside the talent lock tests the value read before the lock, so it
  always passes.
- Status "rejected" is tested by the sweep, but nothing in the code writes it.
- Nothing in the code writes the "assignments:active" sorted set; the sweep only
  reads it. The model takes the set as part of the store's state.
- Nothing in the code calls `get_fallback_evaluation`. `Deadline.FallbackVerdictRejects`
  states what would happen if an evaluator returned it; no path in the code does.
- `get_message` with a lookback of 0 returns the oldest message of the channel, not
  the newest, because of Python's negative indexing.
- `tasks/monitoring.py` redefines `evaluate_extension_task` after importing it, so the
  sweep's evaluation dispatch is modelled as an event and nothing more.

Some of talent-match's code cannot run as written. There the model follows the
code's evident intent:

- `reassign_task` (tasks/reassignment.py) imports `Task` from Celery and never
  imports `datetime` or `DeadlineService`. As written, `Task.from_redis` raises
  AttributeError inside the `try`, so every run ends in `self.retry(countdown=120)`.
  The model uses the domain `Task`, the clock and
  `DeadlineService.set_initial_deadline`.
- `assign_task` calls `hset(key, task.model_dump_json())` with no value. As written,
  redis-py raises DataError after `get_next_available` has already claimed the
  talent, so the talent is taken and no record is written. The model writes the
  fresh record's ten fields, as `to_redis` does.
- `Talent.from_redis` is called by `get_next_available`, but domain/models/talent.py
  defines no such method. As written, the call raises, the `except` catches it, and
  `get_next_available` returns None for every task with candidates. The model reads
  a talent hash with `TalentModel.LoadTalent`: a non-empty hash, an optional
  `available` flag (default true), and a required rating in [0, 5]. The field is
  required and bounded as domain/models/talent.py declares. Its text syntax,
  digits with an optional fractional part, is this model's own choice: it refuses
  forms such as "5.", ".5", "1e0" or " 3" that pydantic's float parsing accepts.
- `evaluate_extension` in integrations/gemini.py is decorated with
  `retry(max_retries=3, backoff_factor=1.5)`, but `retry` accepts no
  `backoff_factor`. As written, this is a TypeError when the module is imported, so
  nothing that imports integrations/ can load, the deadline service and the
  monitoring task included. The model treats `evaluate_extension` as undecorated
  and models `retry` on its own in `Decorators`.

## Model

| member | source | states |
|---|---|---|
| TextCodec.ParseNatDigits | domain/models/task.py:43-44 | a timestamp written as text reads back as the same instant |
| TextCodec.ParseIntText | domain/models/task.py:47 | a score written as text reads back unchanged, negative scores included |
| TextCodec.ParseChunksOf | domain/models/task.py:46-47 | the items of a stored list or dictionary are recovered exactly from its text |
| TextCodec.UnencloseOf | domain/models/task.py:46-47 | the body of a bracketed text is recovered from it |
| TextCodec.EmptyIsNotEnclosed | domain/models/task.py:46-47 | the empty text is neither a list nor an object, so it fails to decode, as `json.loads("")` does |
| RedisStore.HashOf | domain/models/task.py:34-36 | a missing key reads as the empty hash |
| RedisStore.Store.HSetTask | domain/services/deadline.py:15-21 | an HSET on a task writes the given fields over the stored ones, keeps the others, creates a missing hash, and touches no talent |
| RedisStore.Store.HSetTalent | domain/services/matching.py:23 | an HSET on a talent writes the given fields over the stored ones and touches no task |
| TaskModel.NewTask | domain/models/task.py:10-20 | a new task is unassigned, has extension status "none", empty history and matches, and no dates |
| TaskModel.IsOverdue | domain/models/task.py:22-25 | the due date decides when set, else the deadline; overdue only when that date exists and now is strictly later |
| TaskModel.OverdueStaysOverdue | domain/models/task.py:22-25 | a task overdue now is overdue at any later time |
| TaskModel.HasRequestedExtension | domain/models/task.py:27-29 | true exactly for extension status pending, approved or rejected; false for the default "none" |
| TaskModel.DecodeExtensionsOf | domain/models/task.py:46 | the stored extension history reads back as written |
| TaskModel.EmptyHistoryText | domain/models/task.py:46 | the default text "[]" is the empty history |
| TaskModel.DecodeMatchesOf | domain/models/task.py:47 | the stored score dictionary reads back with the same entries in the same order |
| TaskModel.EmptyScoresText | domain/models/task.py:47 | the default text "{}" is the empty dictionary |
| TaskModel.Assign | domain/models/task.py:47 | decoding a duplicate key keeps its first position and takes the new score, as a Python dict does; a new key is added at the end |
| TaskModel.DecodeDate | domain/models/task.py:43-44 | an absent or empty date field reads as None |
| TaskModel.DecodeDateOf | domain/models/task.py:43-44 | a date written as `to_redis` writes it, or "" for None, reads back as the same date or None |
| TaskModel.FromRedis | domain/models/task.py:32-55 | an empty hash is no task; a loaded task carries the requested id |
| TaskModel.FromRedisDecodes | domain/models/task.py:40-52 | a non-empty hash loads as a task exactly when every field decodes to that task's value |
| TaskModel.MalformedFieldRejectsRecord | domain/models/task.py:53-55 | a malformed date in any of the four date fields rejects the whole record |
| TaskModel.MalformedCollectionRejectsRecord | domain/models/task.py:53-55 | a malformed history or score dictionary rejects the whole record |
| TaskModel.MissingFieldsTakeDefaults | domain/models/task.py:45-49 | a non-empty hash with none of the ten fields loads as a fresh task: status "unassigned", extension status "none", empty history and matches |
| TaskModel.ToRedisFields | domain/models/task.py:59-72 | one write holds all ten fields |
| TaskModel.LoadAfterSave | domain/models/task.py:40-74 | whatever the hash held before, saving a task and loading it returns every field, except that a None talent or rejection reason comes back as "" |
| TaskModel.NormalizedIsStable | domain/models/task.py:62-71 | a second save-and-load changes nothing more; status, matches, history and deadline survive the first |
| TaskModel.WriteDecodes | domain/models/task.py:40-52 | a partial write changes exactly the decoded fields it names |
| TaskModel.SaveTask | domain/models/task.py:57-77 | `to_redis` writes the ten fields in one HSET, reports success, and the task then loads back normalised |
| TalentModel.NewTalent | domain/models/talent.py:3-6 | a talent is built exactly when its rating lies in [0, 5], bounds included, with the given id and availability |
| TalentModel.AvailableByDefault | domain/models/talent.py:5 | without an explicit value a talent is available |
| TalentModel.LoadTalent | domain/services/matching.py:18-19 | an empty hash is no talent; a loaded talent has a valid rating and is available unless its flag reads false |
| TalentModel.ClaimedTalentIsUnavailable | domain/services/matching.py:23 | writing `available = "false"` leaves the talent as it was, except that it is now unavailable |
| Matching.InsertByScoreStable | domain/services/matching.py:17 | inserting an entry keeps the relative order of entries with equal scores |
| Matching.SortByScoreSorted | domain/services/matching.py:17 | candidates are visited in descending score order |
| Matching.SortByScorePermutes | domain/services/matching.py:17 | the visiting order is a permutation of the task's matches |
| Matching.SortByScoreStable | domain/services/matching.py:17 | equal scores keep the dictionary's insertion order (a stable sort) |
| Matching.SortByScoreMembers | domain/services/matching.py:17 | a candidate is visited exactly when it is one of the matches |
| Matching.FirstAvailable | domain/services/matching.py:17-24 | the scan stops at the first available candidate; every earlier one is missing or unavailable |
| Matching.GetNextAvailable | domain/services/matching.py:11-25 | the result is what `NextAvailable` says about the task and the talents before the call; exactly that talent is marked unavailable; no task is written |
| Matching.NextAvailableIsBestAvailable | domain/services/matching.py:17-24 | a claimed talent was available, is a candidate of the task, and no available candidate scores higher |
| Matching.NoneAvailable | domain/services/matching.py:25 | no result for an existing task means none of its candidates is available |
| Matching.ClaimMarksUnavailable | domain/services/matching.py:23 | after a claim the talent reads as unavailable and every other talent hash is unchanged |
| Matching.BestIndex | domain/services/matching.py:35 | the first entry with the highest score, as `max` picks it |
| Matching.GetBestMatch | domain/services/matching.py:30-35 | none exactly for a missing task or empty matches; otherwise a talent with the highest score, whether or not it is available |
| Matching.SortHeadIsBest | domain/services/matching.py:17-35 | the first candidate visited is the best match, since both break ties by insertion order |
| Matching.NextAvailableIsBestMatch | domain/services/matching.py:17-35 | when the best match is available, the scan claims exactly that talent |
| Deadline.InitialDeadlineEffect | domain/services/deadline.py:14-21 | on a stored task the write sets deadline and due date both to now + 24h and changes nothing else |
| Deadline.SetInitialDeadline | domain/services/deadline.py:10-25 | writes the two deadline fields in one HSET and reports success |
| Deadline.HistoryOf | domain/services/deadline.py:43-44 | an absent or empty history field is the empty history |
| Deadline.HistoryOfWritten | domain/services/deadline.py:50 | a written history reads back as written |
| Deadline.HistoryOfLoaded | domain/services/deadline.py:61-62 | the history the service reads is the one the stored task holds |
| Deadline.RequestedHash | domain/services/deadline.py:33-51 | the status fields are always written; with a readable history exactly one unjudged entry is appended and the request succeeds |
| Deadline.RequestExtension | domain/services/deadline.py:29-54 | the store ends in the state `RequestedHash` describes, and the result is its success flag |
| Deadline.RequestExtensionEffect | domain/services/deadline.py:33-51 | on a stored task a request always succeeds, even with one pending: status "extension_requested", "pending", requested now, one entry appended, earlier entries kept |
| Deadline.RejectionReason | domain/services/deadline.py:91 | a non-empty reason from the evaluator is kept as given; an empty one becomes "Rejected by AI"; the result is never empty |
| Deadline.Judged | domain/services/deadline.py:85-96 | the latest entry keeps its time and reason and records the verdict, plus the reason on a rejection |
| Deadline.EvaluatedHash | domain/services/deadline.py:61-102 | nothing changes and the result is false unless the history decodes, is non-empty and the evaluator gives a verdict |
| Deadline.RecordVerdict | domain/services/deadline.py:71-100 | the verdict's fields are written, then the history with only its latest entry judged; nothing else in the store changes |
| Deadline.EvaluateExtension | domain/services/deadline.py:57-105 | the result and the stored task are as `EvaluatedHash` says; a failure writes nothing |
| Deadline.EvaluationKeepsHistory | domain/services/deadline.py:65-100 | the history keeps its length and earlier entries; only the latest entry is judged |
| Deadline.ApprovalEffect | domain/services/deadline.py:71-85 | an approval: status "assigned", deadline = due date = now + 24h, "approved", requested now, empty reason, latest entry approved |
| Deadline.RejectionEffect | domain/services/deadline.py:86-96 | a rejection: status "reassigning", "rejected", the reason or "Rejected by AI", deadlines untouched, latest entry refused with the same reason |
| Deadline.FallbackVerdictRejects | domain/services/deadline.py:86-96 | the fallback verdict moves the task to "reassigning" with the fallback's reason |
| Monitoring.ExpiredEntries | tasks/monitoring.py:14-18 | the members of the sorted set with a score in [0, now], still a sorted set: no member repeated, scores in ascending order |
| Monitoring.Expired | tasks/monitoring.py:14-18 | the ids of those entries in score order: exactly the active ids whose deadline score lies in [0, now], none repeated |
| Monitoring.Decide | tasks/monitoring.py:27-37 | a pending extension is evaluated first; a task is moved if and only if no extension is pending and it is rejected, or assigned and overdue; otherwise nothing is done |
| Monitoring.SweepStep | tasks/monitoring.py:20-37 | a missing task is skipped; a pending extension dispatches evaluation with no write; a task needing no action leaves the store and the jobs unchanged; any write comes with one reassignment dispatch; other tasks are untouched |
| Monitoring.CheckDeadlines | tasks/monitoring.py:11-37 | the store and the dispatched jobs are those of `Sweep` over the expired ids; talents and the active set are not written |
| Monitoring.SweepStepMove | tasks/monitoring.py:31-35 | a move saves the task as "reassigning" and dispatches one reassignment |
| Monitoring.MoveChangesOnlyStatus | tasks/monitoring.py:33-34 | a moved task reads back with status "reassigning" and otherwise as before |
| Monitoring.StepSettles | tasks/monitoring.py:31-37 | after its step a task is no longer eligible for a move |
| Monitoring.QuietStep | tasks/monitoring.py:28-37 | a task not eligible for a move is not written and causes no reassignment |
| Monitoring.ExpiredTasksHandledAlone | tasks/monitoring.py:14-37 | sweeping the expired ids leaves an expired task as its own step leaves it, and any other task as it was |
| Monitoring.SweepSettles | tasks/monitoring.py:20-37 | after a sweep no swept task is eligible for a move |
| Monitoring.QuietSweep | tasks/monitoring.py:20-37 | a sweep over ineligible tasks writes nothing and dispatches only evaluations |
| Monitoring.SweepIdempotent | tasks/monitoring.py:20-37 | sweeping again writes nothing more and dispatches no reassignment |
| Monitoring.StepLocal | tasks/monitoring.py:22-35 | a step's effect on its task depends only on that task's hash |
| Monitoring.SweepPointwise | tasks/monitoring.py:20-37 | over distinct ids each task is treated as if alone, and tasks not swept are untouched |
| Reassignment.ReassignEffect | tasks/reassignment.py:20-28 | on a stored task: the new talent, claimed now, status "assigned", deadline = due date = now + 24h; history, matches and extension status untouched |
| Reassignment.ClaimTwice | tasks/reassignment.py:25 | marking the claimed talent unavailable again changes nothing more |
| Reassignment.PlanPicksBestAvailable | tasks/reassignment.py:14 | a reassignment goes to an available candidate that no available candidate outscores |
| Reassignment.PlanRetriesWhenNoneAvailable | tasks/reassignment.py:14-16 | with no available candidate the job is retried |
| Reassignment.BindTalent | tasks/reassignment.py:19-28 | binds the talent, marks it unavailable, then writes the deadline fields |
| Reassignment.ReassignTask | tasks/reassignment.py:7-32 | a missing or non-reassigning task is refused with no write; else the scan claims its talent; with none or an empty id the task is unwritten and a retry in 120 s follows; else the bind and deadline writes |
| Assignment.AssignedTask | tasks/assignment.py:15-19 | the written record is a fresh task bound to the talent and claimed now, every other field at its default |
| Assignment.AssignTask | tasks/assignment.py:9-23 | one scan; without a talent no task is written; with one the fresh record is written and reads back bound to it |
| Assignment.AssignmentResetsTask | tasks/assignment.py:15-20 | the assigned task reads back "unassigned", with no deadline, history or candidates, so a later scan finds no talent |
| Api.TaskIdsDiffer | main.py:34 | tasks created at different seconds get different ids |
| Api.CreatedTask | main.py:35-42 | the new task is unassigned, with empty history, the given matches, and deadline and due date now + 24h |
| Api.CreateTask | main.py:32-47 | saves the task, dispatches one assignment job and answers with the task as it reads back |
| Api.CreatedTaskReadsBack | main.py:43-47 | the created task reads back as built |
| Api.GetTask | main.py:50-54 | the stored task, or 404 "Task not found" exactly when there is none |
| Api.RequestExtension | main.py:57-62 | 400 exactly when the service reports failure, else "pending", with the service's writes |
| Api.ReasonOrDefault | main.py:72 | the given reason, or "Rejected" when it is missing or empty |
| Api.Processed | main.py:70-77 | extension status as given; on "rejected" the reason (or "Rejected") and deadlines untouched; else an empty reason and deadline = due date = now + 24h; status never changes |
| Api.ProcessExtension | main.py:65-80 | 404 with no write for a missing task; else the processed task is saved and reads back |
| Api.ApprovalPostponesSweep | main.py:73-77 | after a processed approval the sweep leaves the task alone until the new deadline |
| Api.Completed | main.py:95 | status "completed", every other field as before |
| Api.CompleteTask | main.py:89-98 | 404 for a missing task and 400 while the extension is rejected, both with no write; else saved as completed |
| Api.CompletedIsSettled | main.py:95 | a completed task without a pending extension is never moved by the sweep |
| Gemini.StripLeft | integrations/gemini.py:121 | drops exactly the leading whitespace |
| Gemini.StripRight | integrations/gemini.py:121 | drops exactly the trailing whitespace |
| Gemini.Strip | integrations/gemini.py:121 | the result neither starts nor ends with whitespace |
| Gemini.StripTrimmed | integrations/gemini.py:121 | text without outer whitespace is left alone |
| Gemini.StripIdempotent | integrations/gemini.py:121-125 | stripping twice is stripping once |
| Gemini.CleanResponse | integrations/gemini.py:121-125 | the reply is trimmed; a "```json" reply loses its first 7 and last 3 characters and is trimmed again |
| Gemini.FencedReplyIsUnwrapped | integrations/gemini.py:124-125 | a fenced reply is unwrapped to its trimmed body |
| Gemini.ParseAiResponse | integrations/gemini.py:119-139 | accepted exactly when the reply decodes to an object with the three fields, a boolean `approved` and a confidence in [0, 1]; returned unchanged; a missing field is reported as such |
| Gemini.ParseAiResponseErrors | integrations/gemini.py:133-137 | a non-boolean `approved`, or a confidence out of range, is refused for that reason |
| Gemini.ToEvaluation | integrations/gemini.py:58 | an evaluation exists exactly when `reason` is a string; it carries the reply's reason, verdict and exact numeric confidence |
| Gemini.FallbackEvaluation | integrations/gemini.py:163-169 | not approved, "System could not process request", confidence 0 |
| Gemini.EvaluateExtension | integrations/gemini.py:40-73 | a cache hit is returned as is; a failed call or a refused reply gives none; on a miss, a reply that parses gives exactly the evaluation built from it |
| Gemini.EvaluationConfidenceInRange | integrations/gemini.py:136-139 | every evaluation built from a reply has a confidence in [0, 1] |
| Decorators.Retry | domain/utils/decorators.py:46-61 | at most `max_retries` attempts; earlier attempts all raised retried errors; the first value is returned; an error not retried propagates at once; exhaustion raises the last error; one pause between attempts, none after the last; `raise None` when no attempt is allowed |
| Decorators.RetryWithDefaults | domain/utils/decorators.py:46-61 | the decorator's defaults: at most 3 attempts, a 1.0 s pause between them, every exception retried; the outcome is the last attempt's value, or its exception once three have failed |
| Security.ValidateTaskPayload | domain/utils/security.py:1-23 | true exactly for an object whose "task_id" is a string and whose "data" is an object |
| Security.ExtraKeysIgnored | domain/utils/security.py:14-23 | adding any other key never changes the verdict |
| Security.OnlyCheckedKeysMatter | domain/utils/security.py:14-23 | a payload agreeing with a valid one on the two checked keys is valid |
| SlackMock.FirstMatch | integrations/mock/slack.py:38-39 | the first message with the channel and timestamp; no earlier message matches |
| SlackMock.InChannel | integrations/mock/slack.py:46 | only messages of the channel, drawn from the log |
| SlackMock.Lookback | integrations/mock/slack.py:44-50 | lookback 1..n gives the lookback-th most recent message of the channel; beyond n gives none; zero or negative lookbacks index from the oldest, as Python does |
| SlackMock.InChannelAppend | integrations/mock/slack.py:46 | a posted message is the newest of its channel, and other channels are unchanged |
| SlackMock.NewestAfterPost | integrations/mock/slack.py:44-50 | after a post the newest message of its channel is that post, and older lookbacks shift by one |
| SlackMock.OtherChannelUnaffected | integrations/mock/slack.py:44-50 | a post to one channel changes no look-up in another |
| SlackMock.SlackMessage.constructor | integrations/mock/slack.py:6-11 | a message has the given channel, text and timestamp and no reactions |
| SlackMock.MockSlackClient.constructor | integrations/mock/slack.py:14-16 | the log starts empty |
| SlackMock.MockSlackClient.PostMessage | integrations/mock/slack.py:18-34 | exactly one new message with no reactions at the end of the log, earlier ones kept; answers ok with the text and channel |
| SlackMock.MockSlackClient.AddReaction | integrations/mock/slack.py:36-42 | the emoji is appended to the first matching message only; with no match the answer is "message_not_found" and nothing changes |
| SlackMock.MockSlackClient.GetMessage | integrations/mock/slack.py:44-50 | a returned message is from the log and from the channel |
| SlackMock.MockSlackClient.ClearMessages | integrations/mock/slack.py:52-54 | the log is empty |
| SlackMock.AssignmentTextNamesTask | integrations/mock/slack.py:60 | the assignment text contains the task id |
| SlackMock.SendTaskAssignment | integrations/mock/slack.py:58-61 | exactly one message is posted, on the channel, and its text contains the task id |

## Left out

- Redis I/O, connection errors, pipelines, locks and their timeouts, and concurrency. Claims happen one at a time, so the lock's guarantee of at most one claim under concurrent scans lies outside a sequential model.
- Any store error yields none or false (the `except` branches of `get_next_available`, `set_initial_deadline`, `request_extension`, `evaluate_extension`, `from_redis` and `to_redis`). The in-memory store never fails, so these branches are not modelled. The one exception is a decode failure, which is modelled.
- Event publishing (`integrations/redis_events.py`) and the `trigger_reassignment` and `health` endpoints.
- Celery: `.delay` becomes a returned event and `self.retry(countdown=120)` becomes an outcome. Scheduling, the three-retry limit of `reassign_task` and task binding are not modelled.
- `tasks/evaluation.py` and `domain/services/extension.py` dispatch to a method that does not exist. The OpenAI clients and the Gemini prompt, model call and cache writes are external services.
- `validate_input`, `timed` and `domain/utils/logging.py`: reflection, timing and logging.
- The retrying of `evaluate_extension` by its decorator, which cannot load as written (see above).
- The concrete ISO-8601 and JSON syntax are replaced by the proved text codecs described above. Extension-history entries are typed records, not free dictionaries.
- Match scores are integers rather than floats; only their order matters to the code.
- Wall-clock time: a single `now` stands for the several `datetime.now()` calls in one operation.
- Deadline.SetInitialDeadline: its contract states the raw field write. The decoded effect is stated separately in `Deadline.InitialDeadlineEffect`.
- RedisStore.SortedSet: members with equal scores may come in any order; Redis orders them by member bytes.
- Decorators.Retry: the logging of each failed attempt is left out, and the wrapped call always returns or raises (it cannot hang).
