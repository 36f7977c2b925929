/**
  The talent record (domain/models/talent.py) and the way a talent hash is
  read back from the store.
*/
module TalentModel {
  import opened Wrappers
  import opened TextCodec
  import opened RedisStore

  datatype Talent = Talent(talentId: string, available: bool, rating: real)

  predicate ValidRating(rating: real) {
    0.0 <= rating <= 5.0
  }

  /**
    `Talent(talent_id=..., rating=..., available=...)` with the model's field
    validation: the id and the rating must be given, `available` defaults to
    true, and a rating outside [0, 5] is refused.
  */
  function NewTalent(talentId: string, rating: real, available: bool := true): (r: Option<Talent>)
    ensures r.Some? <==> ValidRating(rating)
    ensures r.Some? ==> r.value.talentId == talentId && r.value.rating == rating
    ensures r.Some? ==> r.value.available == available
  {
    if ValidRating(rating) then Some(Talent(talentId, available, rating)) else None
  }

  /** A talent built without an explicit availability is available. */
  lemma AvailableByDefault(talentId: string, rating: real)
    requires ValidRating(rating)
    ensures NewTalent(talentId, rating) == Some(Talent(talentId, true, rating))
  {
  }

  // ---------------------------------------------------------------------------
  // Reading a talent hash

  const AVAILABLE := "available"
  const RATING := "rating"

  function LowerChar(c: char): char {
    if 'A' <= c <= 'Z' then ((c as int) + 32) as char else c
  }

  function Lower(s: string): (r: string)
    ensures |r| == |s|
  {
    if s == [] then [] else [LowerChar(s[0])] + Lower(s[1..])
  }

  /** The strings a boolean field accepts, in any letter case. */
  function ParseBool(s: string): Option<bool> {
    var t := Lower(s);
    if t in {"1", "on", "t", "true", "y", "yes"} then Some(true)
    else if t in {"0", "off", "f", "false", "n", "no"} then Some(false)
    else None
  }

  /** The position of the first `c` in `s`, or `|s|` when there is none. */
  function IndexOf(s: string, c: char): (k: nat)
    ensures k <= |s| && (k < |s| ==> s[k] == c)
  {
    if s == [] then 0 else if s[0] == c then 0 else 1 + IndexOf(s[1..], c)
  }

  function Pow10(n: nat): (p: nat)
    ensures p > 0
  {
    if n == 0 then 1 else 10 * Pow10(n - 1)
  }

  /** A decimal number: digits, optionally followed by a point and more digits. */
  function ParseDecimal(s: string): Option<real> {
    var k := IndexOf(s, '.');
    if k == |s| then
      match ParseNat(s)
      case None => None
      case Some(w) => Some(w as real)
    else
      match (ParseNat(s[..k]), ParseNat(s[k + 1..]))
      case (Some(w), Some(f)) => Some(w as real + (f as real) / (Pow10(|s| - k - 1) as real))
      case _ => None
  }

  /**
    A talent as read from its hash: none when the hash is empty or a field is
    malformed; `available` takes its default when absent; the rating must be
    present and within range.
  */
  function LoadTalent(talentId: string, h: Hash): (r: Option<Talent>)
    ensures h == map[] ==> r.None?
    ensures r.Some? ==> r.value.talentId == talentId && ValidRating(r.value.rating)
    ensures r.Some? ==> (r.value.available <==> AVAILABLE !in h || ParseBool(h[AVAILABLE]) == Some(true))
  {
    if h == map[] || RATING !in h then None
    else
      var available := if AVAILABLE in h then ParseBool(h[AVAILABLE]) else Some(true);
      match (available, ParseDecimal(h[RATING]))
      case (Some(a), Some(rating)) => NewTalent(talentId, rating, a)
      case _ => None
  }

  /** Writing "false" to `available` is what marks a talent claimed. */
  lemma ClaimedTalentIsUnavailable(talentId: string, h: Hash)
    requires LoadTalent(talentId, h).Some?
    ensures LoadTalent(talentId, h[AVAILABLE := "false"])
         == Some(LoadTalent(talentId, h).value.(available := false))
  {
    assert Lower("false") == "false";
  }
}
