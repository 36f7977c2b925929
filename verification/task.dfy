/**
  The task record (domain/models/task.py): its fields and defaults, the two
  predicates on it, and its decoding from and encoding to a Redis hash.
*/
module TaskModel {
  import opened Wrappers
  import opened TextCodec
  import opened RedisStore

  /** A point in time, in whole seconds. */
  type Time = nat

  /** The 24-hour period granted by every deadline the code sets. */
  const GRACE: nat := 24 * 60 * 60

  function FormatTime(t: Time): string {
    Digits(t)
  }

  function ParseTime(s: string): Option<Time> {
    ParseNat(s)
  }

  // Field names of a task hash.
  const ASSIGNED_TO := "assigned_to"
  const CLAIMED_AT := "claimed_at"
  const DEADLINE := "deadline"
  const STATUS := "status"
  const EXTENSIONS := "extensions"
  const MATCHES := "matches"
  const DUE_DATE := "due_date"
  const EXTENSION_STATUS := "extension_status"
  const EXTENSION_REQUESTED_AT := "extension_requested_at"
  const EXTENSION_REJECTION_REASON := "extension_rejection_reason"

  // Values of `status` and `extension_status` the code writes or tests.
  const UNASSIGNED := "unassigned"
  const ASSIGNED := "assigned"
  const EXTENSION_REQUESTED := "extension_requested"
  const REASSIGNING := "reassigning"
  const COMPLETED := "completed"
  const NONE := "none"
  const PENDING := "pending"
  const APPROVED := "approved"
  const REJECTED := "rejected"

  /**
    One entry of the extension history, a JSON object with the keys
    `requested_at`, `reason`, `approved` (null until decided) and, once
    rejected, `rejection_reason`.
  */
  datatype Extension = Extension(
    requestedAt: string,
    reason: string,
    approved: Option<bool>,
    rejectionReason: Option<string>)

  /** One entry of the `matches` dictionary: a candidate talent and its score. */
  datatype Match = Match(talent: string, score: int)

  predicate DistinctTalents(m: seq<Match>) {
    forall i, j | 0 <= i < j < |m| :: m[i].talent != m[j].talent
  }

  /** A dictionary from talent id to score, in insertion order. */
  type Scores = m: seq<Match> | DistinctTalents(m)

  datatype Task = Task(
    taskId: string,
    assignedTo: Option<string>,
    claimedAt: Option<Time>,
    deadline: Option<Time>,
    status: string,
    extensions: seq<Extension>,
    matches: Scores,
    dueDate: Option<Time>,
    extensionStatus: string,
    extensionRequestedAt: Option<Time>,
    extensionRejectionReason: Option<string>)

  /** `Task(task_id=...)` with every other field at its declared default. */
  function NewTask(taskId: string): (t: Task)
    ensures t.taskId == taskId && t.status == UNASSIGNED && t.extensionStatus == NONE
    ensures t.extensions == [] && t.matches == []
    ensures t.assignedTo.None? && t.claimedAt.None? && t.deadline.None? && t.dueDate.None?
    ensures t.extensionRequestedAt.None? && t.extensionRejectionReason.None?
  {
    Task(taskId, None, None, None, UNASSIGNED, [], [], None, NONE, None, None)
  }

  /**
    `is_overdue`: the due date governs when it is set, the deadline otherwise;
    the task is overdue only when that date exists and `now` is strictly later.
  */
  function IsOverdue(t: Task, now: Time): (r: bool)
    ensures r ==> t.dueDate.Some? || t.deadline.Some?
    ensures t.dueDate.Some? ==> (r <==> now > t.dueDate.value)
    ensures t.dueDate.None? ==> (r <==> t.deadline.Some? && now > t.deadline.value)
  {
    var checkDate := if t.dueDate.Some? then t.dueDate else t.deadline;
    checkDate.Some? && now > checkDate.value
  }

  /** Once overdue, a task stays overdue as time goes on. */
  lemma OverdueStaysOverdue(t: Task, now: Time, later: Time)
    requires IsOverdue(t, now) && now <= later
    ensures IsOverdue(t, later)
  {
  }

  /** `has_requested_extension`: any extension status other than the default. */
  function HasRequestedExtension(t: Task): (r: bool)
    ensures r <==> t.extensionStatus in {PENDING, APPROVED, REJECTED}
    ensures t.extensionStatus == NONE ==> !r
  {
    t.extensionStatus == PENDING || t.extensionStatus == APPROVED || t.extensionStatus == REJECTED
  }

  // ---------------------------------------------------------------------------
  // Extension history codec (the `extensions` field)

  function ApprovedText(a: Option<bool>): (r: string)
    ensures ParseApproved(r) == Some(a)
  {
    match a
    case None => "null"
    case Some(b) => if b then "true" else "false"
  }

  function ParseApproved(s: string): Option<Option<bool>> {
    if s == "null" then Some(None)
    else if s == "true" then Some(Some(true))
    else if s == "false" then Some(Some(false))
    else None
  }

  /** The values of one history entry, `rejection_reason` only when the key is present. */
  function ExtensionItems(e: Extension): seq<string> {
    [e.requestedAt, e.reason, ApprovedText(e.approved)]
      + (if e.rejectionReason.Some? then [e.rejectionReason.value] else [])
  }

  function EncodeExtension(e: Extension): string {
    Chunks(ExtensionItems(e))
  }

  function DecodeExtension(s: string): Option<Extension> {
    match ParseChunks(s)
    case None => None
    case Some(items) =>
      if |items| != 3 && |items| != 4 then None
      else
        match ParseApproved(items[2])
        case None => None
        case Some(approved) =>
          Some(Extension(items[0], items[1], approved, if |items| == 4 then Some(items[3]) else None))
  }

  lemma DecodeExtensionOf(e: Extension)
    ensures DecodeExtension(EncodeExtension(e)) == Some(e)
  {
    var items := ExtensionItems(e);
    ParseChunksOf(items);
    assert ParseChunks(EncodeExtension(e)) == Some(items);
    assert items[0] == e.requestedAt && items[1] == e.reason && items[2] == ApprovedText(e.approved);
    if e.rejectionReason.Some? {
      assert |items| == 4 && items[3] == e.rejectionReason.value;
    } else {
      assert |items| == 3;
    }
  }

  function EncodeEachExtension(es: seq<Extension>): (items: seq<string>)
    ensures |items| == |es|
  {
    if es == [] then [] else [EncodeExtension(es[0])] + EncodeEachExtension(es[1..])
  }

  function DecodeEachExtension(items: seq<string>): Option<seq<Extension>> {
    if items == [] then Some([])
    else
      match DecodeExtension(items[0])
      case None => None
      case Some(e) =>
        match DecodeEachExtension(items[1..])
        case None => None
        case Some(es) => Some([e] + es)
  }

  lemma {:induction false} DecodeEachExtensionOf(es: seq<Extension>)
    ensures DecodeEachExtension(EncodeEachExtension(es)) == Some(es)
  {
    if es != [] {
      DecodeExtensionOf(es[0]);
      DecodeEachExtensionOf(es[1..]);
      assert EncodeEachExtension(es)[1..] == EncodeEachExtension(es[1..]);
      assert [es[0]] + es[1..] == es;
    }
  }

  /** The history as stored: a list of entries (`json.dumps` of a list). */
  function EncodeExtensions(es: seq<Extension>): string {
    Enclose('[', Chunks(EncodeEachExtension(es)), ']')
  }

  /** Reads a stored history; anything but a well-formed list fails. */
  function DecodeExtensions(s: string): Option<seq<Extension>> {
    match Unenclose(s, '[', ']')
    case None => None
    case Some(body) =>
      match ParseChunks(body)
      case None => None
      case Some(items) => DecodeEachExtension(items)
  }

  /** History round trip. */
  lemma DecodeExtensionsOf(es: seq<Extension>)
    ensures DecodeExtensions(EncodeExtensions(es)) == Some(es)
  {
    UnencloseOf('[', Chunks(EncodeEachExtension(es)), ']');
    ParseChunksOf(EncodeEachExtension(es));
    DecodeEachExtensionOf(es);
  }

  lemma EmptyHistoryText()
    ensures DecodeExtensions("[]") == Some([])
  {
    assert "[]" == Enclose('[', Chunks([]), ']');
    UnencloseOf('[', "", ']');
  }

  // ---------------------------------------------------------------------------
  // Score dictionary codec (the `matches` field)

  /** The position of `talent` in `d`, or `|d|` when it is not a key. */
  function IndexOfTalent(d: seq<Match>, talent: string): (k: nat)
    ensures k <= |d|
    ensures k < |d| ==> d[k].talent == talent
    ensures forall j | 0 <= j < k :: d[j].talent != talent
  {
    if d == [] then 0
    else if d[0].talent == talent then 0
    else 1 + IndexOfTalent(d[1..], talent)
  }

  /**
    `d[e.talent] = e.score` on a Python dictionary: an existing key keeps its
    position and takes the new score, a new key goes at the end.
  */
  function Assign(d: Scores, e: Match): (r: Scores)
    ensures (forall j | 0 <= j < |d| :: d[j].talent != e.talent) ==> r == d + [e]
    ensures forall j | 0 <= j < |d| && d[j].talent == e.talent :: r == d[j := e]
  {
    var k := IndexOfTalent(d, e.talent);
    if k < |d| then d[k := e] else d + [e]
  }

  function EncodeMatch(m: Match): string {
    Chunks([m.talent, IntText(m.score)])
  }

  function DecodeMatch(s: string): Option<Match> {
    match ParseChunks(s)
    case None => None
    case Some(items) =>
      if |items| != 2 then None
      else
        match ParseInt(items[1])
        case None => None
        case Some(score) => Some(Match(items[0], score))
  }

  lemma DecodeMatchOf(m: Match)
    ensures DecodeMatch(EncodeMatch(m)) == Some(m)
  {
    ParseChunksOf([m.talent, IntText(m.score)]);
    ParseIntText(m.score);
  }

  function EncodeEachMatch(m: seq<Match>): (items: seq<string>)
    ensures |items| == |m|
  {
    if m == [] then [] else [EncodeMatch(m[0])] + EncodeEachMatch(m[1..])
  }

  /** Adds decoded entries to `acc` one by one, as building a Python dictionary does. */
  function DecodeEachMatch(acc: Scores, items: seq<string>): Option<Scores>
    decreases |items|
  {
    if items == [] then Some(acc)
    else
      match DecodeMatch(items[0])
      case None => None
      case Some(e) => DecodeEachMatch(Assign(acc, e), items[1..])
  }

  /** In a dictionary with distinct keys, the first key of `m` is not yet in `acc`. */
  lemma NextKeyIsNew(acc: seq<Match>, m: seq<Match>)
    requires m != [] && DistinctTalents(acc + m)
    ensures forall j | 0 <= j < |acc| :: acc[j].talent != m[0].talent
    ensures DistinctTalents(acc + [m[0]])
    ensures DistinctTalents(m[1..])
  {
    forall j | 0 <= j < |acc| ensures acc[j].talent != m[0].talent {
      assert (acc + m)[j] == acc[j] && (acc + m)[|acc|] == m[0];
    }
    assert acc + [m[0]] == (acc + m)[..|acc| + 1];
    forall i, j | 0 <= i < j < |m| - 1 ensures m[1..][i].talent != m[1..][j].talent {
      assert (acc + m)[|acc| + 1 + i] == m[1..][i];
      assert (acc + m)[|acc| + 1 + j] == m[1..][j];
    }
  }

  lemma {:induction false} DecodeEachMatchOf(acc: Scores, m: seq<Match>)
    requires DistinctTalents(acc + m)
    ensures DecodeEachMatch(acc, EncodeEachMatch(m)) == Some(acc + m)
    decreases |m|
  {
    if m != [] {
      DecodeMatchOf(m[0]);
      NextKeyIsNew(acc, m);
      var acc': Scores := acc + [m[0]];
      assert Assign(acc, m[0]) == acc';
      assert acc' + m[1..] == acc + m;
      var items := EncodeEachMatch(m);
      assert items[0] == EncodeMatch(m[0]) && items[1..] == EncodeEachMatch(m[1..]);
      DecodeEachMatchOf(acc', m[1..]);
      assert DecodeEachMatch(acc, items) == DecodeEachMatch(acc', items[1..]);
    } else {
      assert acc + m == acc;
    }
  }

  /** The score dictionary as stored (`json.dumps` of a dict). */
  function EncodeMatches(m: Scores): string {
    Enclose('{', Chunks(EncodeEachMatch(m)), '}')
  }

  /** Reads a stored dictionary; anything but a well-formed object fails. */
  function DecodeMatches(s: string): Option<Scores> {
    match Unenclose(s, '{', '}')
    case None => None
    case Some(body) =>
      match ParseChunks(body)
      case None => None
      case Some(items) => DecodeEachMatch([], items)
  }

  /** Dictionary round trip. */
  lemma DecodeMatchesOf(m: Scores)
    ensures DecodeMatches(EncodeMatches(m)) == Some(m)
  {
    UnencloseOf('{', Chunks(EncodeEachMatch(m)), '}');
    ParseChunksOf(EncodeEachMatch(m));
    assert [] + m == m;
    DecodeEachMatchOf([], m);
  }

  lemma EmptyScoresText()
    ensures DecodeMatches("{}") == Some([])
  {
    assert "{}" == Enclose('{', Chunks([]), '}');
    UnencloseOf('{', "", '}');
  }

  // ---------------------------------------------------------------------------
  // The whole record

  /**
    A date field: absent or "" stands for None, anything else must parse.
    The outer None means the field is malformed.
  */
  function DecodeDate(h: Hash, field: string): (r: Option<Option<Time>>)
    ensures (field !in h || h[field] == "") ==> r == Some(None)
  {
    if field in h && h[field] != "" then
      match ParseTime(h[field])
      case None => None
      case Some(t) => Some(Some(t))
    else Some(None)
  }

  function DateText(d: Option<Time>): string {
    if d.Some? then FormatTime(d.value) else ""
  }

  lemma DecodeDateOf(h: Hash, field: string, d: Option<Time>)
    requires field in h && h[field] == DateText(d)
    ensures DecodeDate(h, field) == Some(d)
  {
    if d.Some? {
      ParseNatDigits(d.value);
    }
  }

  /**
    `Task.from_redis`: an empty hash is no task; every date, the history and
    the dictionary must decode, else the whole record is rejected; a missing
    field takes its default.
  */
  function FromRedis(taskId: string, h: Hash): (r: Option<Task>)
    ensures h == map[] ==> r.None?
    ensures r.Some? ==> r.value.taskId == taskId
  {
    if h == map[] then None
    else
      var claimedAt := DecodeDate(h, CLAIMED_AT);
      var deadline := DecodeDate(h, DEADLINE);
      var extensions := DecodeExtensions(Get(h, EXTENSIONS).GetOr("[]"));
      var matches := DecodeMatches(Get(h, MATCHES).GetOr("{}"));
      var dueDate := DecodeDate(h, DUE_DATE);
      var requestedAt := DecodeDate(h, EXTENSION_REQUESTED_AT);
      if claimedAt.None? || deadline.None? || extensions.None? || matches.None?
         || dueDate.None? || requestedAt.None?
      then None
      else
        Some(Task(
          taskId,
          Get(h, ASSIGNED_TO),
          claimedAt.value,
          deadline.value,
          Get(h, STATUS).GetOr(UNASSIGNED),
          extensions.value,
          matches.value,
          dueDate.value,
          Get(h, EXTENSION_STATUS).GetOr(NONE),
          requestedAt.value,
          Get(h, EXTENSION_REJECTION_REASON)))
  }

  /** Field by field, `h` holds the record `t` (what `from_redis` reads from each field). */
  predicate Decodes(h: Hash, t: Task) {
    && Get(h, ASSIGNED_TO) == t.assignedTo
    && DecodeDate(h, CLAIMED_AT) == Some(t.claimedAt)
    && DecodeDate(h, DEADLINE) == Some(t.deadline)
    && Get(h, STATUS).GetOr(UNASSIGNED) == t.status
    && DecodeExtensions(Get(h, EXTENSIONS).GetOr("[]")) == Some(t.extensions)
    && DecodeMatches(Get(h, MATCHES).GetOr("{}")) == Some(t.matches)
    && DecodeDate(h, DUE_DATE) == Some(t.dueDate)
    && Get(h, EXTENSION_STATUS).GetOr(NONE) == t.extensionStatus
    && DecodeDate(h, EXTENSION_REQUESTED_AT) == Some(t.extensionRequestedAt)
    && Get(h, EXTENSION_REJECTION_REASON) == t.extensionRejectionReason
  }

  /** A non-empty hash decodes to `t` exactly when each of its fields does. */
  lemma FromRedisDecodes(taskId: string, h: Hash, t: Task)
    requires h != map[]
    ensures FromRedis(taskId, h) == Some(t) <==> t.taskId == taskId && Decodes(h, t)
  {
  }

  /** Fields a write does not name read as before. */
  lemma Untouched(h: Hash, fields: Hash)
    ensures forall f | f !in fields :: Get(h + fields, f) == Get(h, f)
    ensures forall f | f !in fields :: DecodeDate(h + fields, f) == DecodeDate(h, f)
  {
  }

  /**
    What a write of `fields` does to the record `t`, field by field: a
    written field decodes to `t2`'s value, any other field keeps `t`'s.
  */
  predicate WriteAgrees(fields: Hash, t: Task, t2: Task) {
    && t2.taskId == t.taskId
    && (if ASSIGNED_TO in fields then t2.assignedTo == Some(fields[ASSIGNED_TO])
        else t2.assignedTo == t.assignedTo)
    && (if CLAIMED_AT in fields then DecodeDate(fields, CLAIMED_AT) == Some(t2.claimedAt)
        else t2.claimedAt == t.claimedAt)
    && (if DEADLINE in fields then DecodeDate(fields, DEADLINE) == Some(t2.deadline)
        else t2.deadline == t.deadline)
    && (if STATUS in fields then t2.status == fields[STATUS] else t2.status == t.status)
    && (if EXTENSIONS in fields then DecodeExtensions(fields[EXTENSIONS]) == Some(t2.extensions)
        else t2.extensions == t.extensions)
    && (if MATCHES in fields then DecodeMatches(fields[MATCHES]) == Some(t2.matches)
        else t2.matches == t.matches)
    && (if DUE_DATE in fields then DecodeDate(fields, DUE_DATE) == Some(t2.dueDate)
        else t2.dueDate == t.dueDate)
    && (if EXTENSION_STATUS in fields then t2.extensionStatus == fields[EXTENSION_STATUS]
        else t2.extensionStatus == t.extensionStatus)
    && (if EXTENSION_REQUESTED_AT in fields then DecodeDate(fields, EXTENSION_REQUESTED_AT) == Some(t2.extensionRequestedAt)
        else t2.extensionRequestedAt == t.extensionRequestedAt)
    && (if EXTENSION_REJECTION_REASON in fields then t2.extensionRejectionReason == Some(fields[EXTENSION_REJECTION_REASON])
        else t2.extensionRejectionReason == t.extensionRejectionReason)
  }

  /** A date field read from a write is read the same way from the hash it was written to. */
  lemma WrittenDates(h: Hash, fields: Hash)
    ensures forall f | f in fields :: DecodeDate(h + fields, f) == DecodeDate(fields, f)
  {
  }

  /** A write that agrees with `t2` field by field turns a stored `t` into `t2`. */
  lemma WriteDecodes(h: Hash, fields: Hash, t: Task, t2: Task)
    requires FromRedis(t.taskId, h) == Some(t)
    requires WriteAgrees(fields, t, t2)
    ensures FromRedis(t.taskId, h + fields) == Some(t2)
  {
    FromRedisDecodes(t.taskId, h, t);
    Untouched(h, fields);
    WrittenDates(h, fields);
    assert h + fields != map[] by {
      var f :| f in h;
      assert f in h + fields;
    }
    FromRedisDecodes(t.taskId, h + fields, t2);
  }

  /** A malformed field rejects the whole record, never a partial task. */
  lemma MalformedFieldRejectsRecord(taskId: string, h: Hash, field: string)
    requires field in {CLAIMED_AT, DEADLINE, DUE_DATE, EXTENSION_REQUESTED_AT}
    requires field in h && h[field] != "" && ParseTime(h[field]).None?
    ensures FromRedis(taskId, h).None?
  {
  }

  /** A history or dictionary that does not decode rejects the whole record. */
  lemma MalformedCollectionRejectsRecord(taskId: string, h: Hash)
    requires (EXTENSIONS in h && DecodeExtensions(h[EXTENSIONS]).None?)
          || (MATCHES in h && DecodeMatches(h[MATCHES]).None?)
    ensures FromRedis(taskId, h).None?
  {
  }

  /** A non-empty hash holding none of the task's fields decodes to the defaults. */
  lemma MissingFieldsTakeDefaults(taskId: string, h: Hash)
    requires h != map[]
    requires forall f | f in h :: f !in {ASSIGNED_TO, CLAIMED_AT, DEADLINE, STATUS, EXTENSIONS,
      MATCHES, DUE_DATE, EXTENSION_STATUS, EXTENSION_REQUESTED_AT, EXTENSION_REJECTION_REASON}
    ensures FromRedis(taskId, h) == Some(NewTask(taskId))
  {
    EmptyHistoryText();
    EmptyScoresText();
  }

  /**
    `Task.to_redis`: the mapping written in one `HSET`. Every field is present;
    an absent optional value is written as "".
  */
  function ToRedisFields(t: Task): (fields: Hash)
    ensures fields.Keys == {ASSIGNED_TO, CLAIMED_AT, DEADLINE, STATUS, EXTENSIONS, MATCHES,
      DUE_DATE, EXTENSION_STATUS, EXTENSION_REQUESTED_AT, EXTENSION_REJECTION_REASON}
  {
    map[
      ASSIGNED_TO := t.assignedTo.GetOr(""),
      CLAIMED_AT := DateText(t.claimedAt),
      DEADLINE := DateText(t.deadline),
      STATUS := t.status,
      EXTENSIONS := EncodeExtensions(t.extensions),
      MATCHES := EncodeMatches(t.matches),
      DUE_DATE := DateText(t.dueDate),
      EXTENSION_STATUS := t.extensionStatus,
      EXTENSION_REQUESTED_AT := DateText(t.extensionRequestedAt),
      EXTENSION_REJECTION_REASON := t.extensionRejectionReason.GetOr("")]
  }

  /**
    What a save and a load do to a task: `assigned_to` and
    `extension_rejection_reason` are written as "" when None and read back as "".
  */
  function Normalized(t: Task): Task {
    t.(assignedTo := Some(t.assignedTo.GetOr("")),
       extensionRejectionReason := Some(t.extensionRejectionReason.GetOr("")))
  }

  /**
    Save-then-load round trip, whatever the hash held before: every field comes
    back, except that a None `assigned_to` or `extension_rejection_reason`
    comes back as "".
  */
  lemma LoadAfterSave(t: Task, h: Hash)
    ensures FromRedis(t.taskId, h + ToRedisFields(t)) == Some(Normalized(t))
  {
    var h' := h + ToRedisFields(t);
    assert ASSIGNED_TO in h';
    DecodeDateOf(h', CLAIMED_AT, t.claimedAt);
    DecodeDateOf(h', DEADLINE, t.deadline);
    DecodeDateOf(h', DUE_DATE, t.dueDate);
    DecodeDateOf(h', EXTENSION_REQUESTED_AT, t.extensionRequestedAt);
    DecodeExtensionsOf(t.extensions);
    DecodeMatchesOf(t.matches);
    assert Decodes(h', Normalized(t));
    FromRedisDecodes(t.taskId, h', Normalized(t));
  }

  /** Saving a loaded task again changes nothing further: normalising is idempotent. */
  lemma NormalizedIsStable(t: Task)
    ensures Normalized(Normalized(t)) == Normalized(t)
    ensures Normalized(t).status == t.status && Normalized(t).matches == t.matches
    ensures Normalized(t).extensions == t.extensions && Normalized(t).deadline == t.deadline
  {
  }

  /** The task stored under `id`, as `Task.from_redis(redis, id)` reads it. */
  function LoadTask(store: Store, id: string): Option<Task>
    reads store
  {
    FromRedis(id, store.TaskHash(id))
  }

  /** `task.to_redis(redis)`: one `HSET` of all ten fields; it reports success. */
  method SaveTask(store: Store, t: Task) returns (ok: bool)
    modifies store
    ensures ok
    ensures store.tasks == old(store.tasks)[t.taskId := old(store.TaskHash(t.taskId)) + ToRedisFields(t)]
    ensures store.talents == old(store.talents) && store.active == old(store.active)
    ensures LoadTask(store, t.taskId) == Some(Normalized(t))
  {
    store.HSetTask(t.taskId, ToRedisFields(t));
    LoadAfterSave(t, old(store.TaskHash(t.taskId)));
    ok := true;
  }
}
