/**
  The validation of the language model's reply and the shape of
  `GeminiAIClient.evaluate_extension` (integrations/gemini.py): a cache hit
  is returned as is, and any failure to get, parse or validate a reply
  yields no evaluation. The prompt, the model call and the cache are
  outside the model: the cached value, the reply text and the JSON decoder
  are parameters.
*/
module Gemini {
  import opened Wrappers
  import opened JsonValue

  /** `ExtensionEvaluation`: the verdict on one extension request. */
  datatype Evaluation = Evaluation(approved: bool, reason: string, confidence: real)

  // ---------------------------------------------------------------------------
  // `str.strip()`

  /** The characters Python's `str.isspace` accepts. */
  predicate IsSpace(c: char) {
    var n := c as int;
    n == 0x20 || 0x09 <= n <= 0x0D || 0x1C <= n <= 0x1F || n == 0x85 || n == 0xA0
    || n == 0x1680 || 0x2000 <= n <= 0x200A || n == 0x2028 || n == 0x2029
    || n == 0x202F || n == 0x205F || n == 0x3000
  }

  function StripLeft(s: string): (r: string)
    ensures |r| <= |s| && r == s[|s| - |r|..]
    ensures forall i | 0 <= i < |s| - |r| :: IsSpace(s[i])
    ensures r == [] || !IsSpace(r[0])
  {
    if s != [] && IsSpace(s[0]) then StripLeft(s[1..]) else s
  }

  function StripRight(s: string): (r: string)
    ensures |r| <= |s| && r == s[..|r|]
    ensures forall i | |r| <= i < |s| :: IsSpace(s[i])
    ensures r == [] || !IsSpace(r[|r| - 1])
  {
    if s != [] && IsSpace(s[|s| - 1]) then StripRight(s[..|s| - 1]) else s
  }

  /** `s.strip()`: `s` without its leading and trailing whitespace. */
  function Strip(s: string): (r: string)
    ensures r == [] || (!IsSpace(r[0]) && !IsSpace(r[|r| - 1]))
  {
    var l := StripLeft(s);
    var r := StripRight(l);
    assert r != [] ==> r[0] == l[0];
    r
  }

  /** Text that neither starts nor ends with whitespace is left alone by `strip`. */
  lemma StripTrimmed(s: string)
    requires s == [] || (!IsSpace(s[0]) && !IsSpace(s[|s| - 1]))
    ensures Strip(s) == s
  {
  }

  /** Stripping twice is stripping once. */
  lemma StripIdempotent(s: string)
    ensures Strip(Strip(s)) == Strip(s)
  {
    StripTrimmed(Strip(s));
  }

  // ---------------------------------------------------------------------------
  // `_parse_ai_response`

  const FENCE := "```json"

  /**
    The reply text, trimmed; a reply fenced as a JSON code block loses its
    first 7 and last 3 characters (a slice that may come out empty) and is
    trimmed again.
  */
  function CleanResponse(text: string): (r: string)
    ensures var t := Strip(text);
      if |t| >= 7 && t[..7] == FENCE then r == Strip(t[7..if |t| - 3 < 7 then 7 else |t| - 3]) else r == t
  {
    var t := Strip(text);
    if |t| >= |FENCE| && t[..|FENCE|] == FENCE then
      var stop := if |t| - 3 < 7 then 7 else |t| - 3;
      Strip(t[7..stop])
    else t
  }

  /** A reply wrapped in a JSON code fence is unwrapped to its trimmed body. */
  lemma {:induction false} FencedReplyIsUnwrapped(body: string)
    ensures CleanResponse(FENCE + body + "```") == Strip(body)
  {
    var s := FENCE + body + "```";
    assert |FENCE| == 7 && |s| == |body| + 10;
    assert s[..7] == FENCE;
    assert s[7..|s| - 3] == body;
    assert s[0] == '`' && s[|s| - 1] == '`';
    CleanFence(s);
  }

  /**
    Text that opens the fence and ends in a non-space is already trimmed, so
    cleaning it is the slice `[7:-3]`, trimmed.
  */
  lemma CleanFence(t: string)
    requires |t| >= 10 && t[..7] == FENCE && !IsSpace(t[|t| - 1])
    ensures CleanResponse(t) == Strip(t[7..|t| - 3])
  {
    assert t[0] == FENCE[0];
    StripTrimmed(t);
  }

  /**
    Why a reply was refused. `NotAnObject` covers a reply that decodes to a
    list, a string or a number: `parse_ai_response` then fails either at its
    key test ("Missing required fields") or with a TypeError when it indexes
    the value. Both end in the same refusal, so one label stands for them.
  */
  datatype ParseError =
    | MalformedJson
    | NotAnObject
    | MissingField
    | ApprovedNotBoolean
    | ConfidenceNotComparable
    | ConfidenceOutOfRange

  /** The number `0 <= x <= 1` compares `x` as: booleans count as 0 and 1, other values do not compare. */
  function AsNumber(j: Json): Option<real> {
    match j
    case JNumber(n) => Some(n)
    case JBool(b) => Some(if b then 1.0 else 0.0)
    case _ => None
  }

  predicate HasRequiredFields(o: map<string, Json>) {
    "approved" in o && "reason" in o && "confidence" in o
  }

  /** The conditions a decoded reply must meet. */
  predicate ValidReply(o: map<string, Json>) {
    HasRequiredFields(o) && o["approved"].JBool?
    && AsNumber(o["confidence"]).Some? && 0.0 <= AsNumber(o["confidence"]).value <= 1.0
  }

  /**
    `_parse_ai_response`: the cleaned reply must decode to an object holding
    `approved`, `reason` and `confidence`, with a boolean `approved` and a
    confidence within [0, 1], bounds included; the decoded object is then
    returned unchanged.
  */
  function ParseAiResponse(response: string, loads: string -> Option<Json>): (r: Result<map<string, Json>, ParseError>)
    ensures r.Ok? <==> loads(CleanResponse(response)).Some? && loads(CleanResponse(response)).value.JObject?
                       && ValidReply(loads(CleanResponse(response)).value.fields)
    ensures r.Ok? ==> loads(CleanResponse(response)) == Some(JObject(r.value))
    ensures loads(CleanResponse(response)).None? ==> r == Err(MalformedJson)
    ensures r == Err(MissingField) <==>
              (loads(CleanResponse(response)).Some? && loads(CleanResponse(response)).value.JObject?
               && !HasRequiredFields(loads(CleanResponse(response)).value.fields))
  {
    match loads(CleanResponse(response))
    case None => Err(MalformedJson)
    case Some(j) =>
      if !j.JObject? then Err(NotAnObject)
      else
        var o := j.fields;
        if !HasRequiredFields(o) then Err(MissingField)
        else if !o["approved"].JBool? then Err(ApprovedNotBoolean)
        else if AsNumber(o["confidence"]).None? then Err(ConfidenceNotComparable)
        else if !(0.0 <= AsNumber(o["confidence"]).value <= 1.0) then Err(ConfidenceOutOfRange)
        else Ok(o)
  }

  /** A reply with a non-boolean `approved` or a confidence outside [0, 1] is refused for that reason. */
  lemma ParseAiResponseErrors(response: string, loads: string -> Option<Json>, o: map<string, Json>)
    requires loads(CleanResponse(response)) == Some(JObject(o)) && HasRequiredFields(o)
    ensures !o["approved"].JBool? ==> ParseAiResponse(response, loads) == Err(ApprovedNotBoolean)
    ensures o["approved"].JBool? && AsNumber(o["confidence"]).Some?
            && (AsNumber(o["confidence"]).value < 0.0 || AsNumber(o["confidence"]).value > 1.0)
            ==> ParseAiResponse(response, loads) == Err(ConfidenceOutOfRange)
  {
  }

  /**
    `ExtensionEvaluation(**result)`: extra keys are ignored, `reason` must be
    a string, and a boolean confidence converts to 0 or 1.
  */
  function ToEvaluation(o: map<string, Json>): (r: Option<Evaluation>)
    requires ValidReply(o)
    ensures r.Some? <==> o["reason"].JString?
    ensures r.Some? ==> r.value.approved == o["approved"].b && r.value.reason == o["reason"].s
    ensures r.Some? ==> r.value.confidence == AsNumber(o["confidence"]).value
    ensures r.Some? ==> 0.0 <= r.value.confidence <= 1.0
  {
    if o["reason"].JString? then
      Some(Evaluation(o["approved"].b, o["reason"].s, AsNumber(o["confidence"]).value))
    else None
  }

  /** `get_fallback_evaluation`: a refusal with a fixed reason and no confidence. */
  function FallbackEvaluation(): (e: Evaluation)
    ensures !e.approved && e.confidence == 0.0
    ensures e.reason == "System could not process request"
  {
    Evaluation(false, "System could not process request", 0.0)
  }

  /**
    `evaluate_extension` for one request: `cached` is what the cache holds
    for it and `reply` the model's reply text, None when the call failed.
  */
  function EvaluateExtension(cached: Option<Evaluation>, reply: Option<string>,
                             loads: string -> Option<Json>): (r: Option<Evaluation>)
    ensures cached.Some? ==> r == cached
    ensures cached.None? && reply.None? ==> r.None?
    ensures cached.None? && r.Some? ==>
              var p := ParseAiResponse(reply.value, loads);
              p.Ok? && ValidReply(p.value) && Some(r.value) == ToEvaluation(p.value)
    ensures cached.None? && reply.Some? && ParseAiResponse(reply.value, loads).Err? ==> r.None?
    ensures cached.None? && reply.Some? && ParseAiResponse(reply.value, loads).Ok? ==>
              r == ToEvaluation(ParseAiResponse(reply.value, loads).value)
  {
    if cached.Some? then cached
    else if reply.None? then None
    else
      match ParseAiResponse(reply.value, loads)
      case Err(_) => None
      case Ok(o) => ToEvaluation(o)
  }

  /** Whatever the reply, an evaluation produced from it has a confidence within [0, 1]. */
  lemma EvaluationConfidenceInRange(reply: string, loads: string -> Option<Json>)
    requires EvaluateExtension(None, Some(reply), loads).Some?
    ensures 0.0 <= EvaluateExtension(None, Some(reply), loads).value.confidence <= 1.0
  {
  }
}
