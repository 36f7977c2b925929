/**
  `validate_task_payload` (domain/utils/security.py): the shape check on a
  task payload before it is queued.
*/
module Security {
  import opened JsonValue

  const TASK_ID := "task_id"
  const DATA := "data"

  /**
    True exactly for an object that has a string "task_id" and an object
    "data"; any other key is ignored. The checks run in `validate_task_payload`'s order
    and the first one that fails decides.
  */
  function ValidateTaskPayload(payload: Json): (r: bool)
    ensures !payload.JObject? ==> !r
    ensures payload.JObject? && (TASK_ID !in payload.fields || DATA !in payload.fields) ==> !r
    ensures r <==> payload.JObject? && TASK_ID in payload.fields && DATA in payload.fields
                   && payload.fields[TASK_ID].JString? && payload.fields[DATA].JObject?
  {
    if !payload.JObject? then false
    else if TASK_ID !in payload.fields || DATA !in payload.fields then false
    else if !payload.fields[TASK_ID].JString? then false
    else if !payload.fields[DATA].JObject? then false
    else true
  }

  /** Keys other than "task_id" and "data" never change the verdict. */
  lemma ExtraKeysIgnored(fields: map<string, Json>, key: string, value: Json)
    requires key != TASK_ID && key != DATA
    ensures ValidateTaskPayload(JObject(fields[key := value])) == ValidateTaskPayload(JObject(fields))
  {
    var extended := fields[key := value];
    assert TASK_ID in extended <==> TASK_ID in fields;
    assert DATA in extended <==> DATA in fields;
  }

  /** Only the two checked keys matter: a payload agreeing with a valid one on them is valid. */
  lemma OnlyCheckedKeysMatter(fields1: map<string, Json>, fields2: map<string, Json>)
    requires ValidateTaskPayload(JObject(fields1))
    requires TASK_ID in fields2 && DATA in fields2
    requires fields2[TASK_ID] == fields1[TASK_ID] && fields2[DATA] == fields1[DATA]
    ensures ValidateTaskPayload(JObject(fields2))
  {
  }
}
