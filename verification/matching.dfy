/**
  `MatchingService` (domain/services/matching.py): the scan of a task's
  candidates in descending score order that claims the first available
  talent, and the availability-blind best match.
*/
module Matching {
  import opened Wrappers
  import opened RedisStore
  import opened TaskModel
  import opened TalentModel

  // ---------------------------------------------------------------------------
  // `sorted(task.matches.items(), key=lambda x: -x[1])`

  /** `x` placed after every entry scoring higher and before the rest. */
  function InsertByScore(x: Match, s: seq<Match>): seq<Match> {
    if s == [] || s[0].score <= x.score then [x] + s
    else [s[0]] + InsertByScore(x, s[1..])
  }

  /** A stable sort by descending score (an insertion sort). */
  function SortByScore(m: seq<Match>): seq<Match> {
    if m == [] then [] else InsertByScore(m[0], SortByScore(m[1..]))
  }

  predicate SortedDesc(s: seq<Match>) {
    forall i, j | 0 <= i < j < |s| :: s[i].score >= s[j].score
  }

  /** The entries of `s` with score `v`, in their order in `s`. */
  function WithScore(s: seq<Match>, v: int): seq<Match> {
    if s == [] then []
    else if s[0].score == v then [s[0]] + WithScore(s[1..], v)
    else WithScore(s[1..], v)
  }

  lemma {:induction false} InsertByScorePermutes(x: Match, s: seq<Match>)
    ensures multiset(InsertByScore(x, s)) == multiset(s) + multiset{x}
  {
    if s != [] && s[0].score > x.score {
      InsertByScorePermutes(x, s[1..]);
      assert s == [s[0]] + s[1..];
    }
  }

  lemma {:induction false} InsertByScoreSorted(x: Match, s: seq<Match>)
    requires SortedDesc(s)
    ensures SortedDesc(InsertByScore(x, s))
  {
    if s != [] && s[0].score > x.score {
      InsertByScoreSorted(x, s[1..]);
      InsertByScorePermutes(x, s[1..]);
      var r := InsertByScore(x, s[1..]);
      forall j | 0 <= j < |r|
        ensures s[0].score >= r[j].score
      {
        assert r[j] in multiset(r);
        assert r[j] == x || r[j] in multiset(s[1..]);
      }
    }
  }

  lemma {:induction false} InsertByScoreStable(x: Match, s: seq<Match>, v: int)
    ensures WithScore(InsertByScore(x, s), v) == WithScore([x] + s, v)
  {
    if s != [] && s[0].score > x.score {
      InsertByScoreStable(x, s[1..], v);
      assert ([s[0]] + InsertByScore(x, s[1..]))[1..] == InsertByScore(x, s[1..]);
      assert ([x] + s[1..])[1..] == s[1..];
      assert ([x] + s)[1..] == s;
    }
  }

  /** The candidate order is descending by score. */
  lemma {:induction false} SortByScoreSorted(m: seq<Match>)
    ensures SortedDesc(SortByScore(m))
  {
    if m != [] {
      SortByScoreSorted(m[1..]);
      InsertByScoreSorted(m[0], SortByScore(m[1..]));
    }
  }

  /** The candidate order is a permutation of the matches. */
  lemma {:induction false} SortByScorePermutes(m: seq<Match>)
    ensures multiset(SortByScore(m)) == multiset(m)
  {
    if m != [] {
      SortByScorePermutes(m[1..]);
      InsertByScorePermutes(m[0], SortByScore(m[1..]));
      assert m == [m[0]] + m[1..];
    }
  }

  /** Ties keep the dictionary's insertion order: the sort is stable. */
  lemma {:induction false} SortByScoreStable(m: seq<Match>, v: int)
    ensures WithScore(SortByScore(m), v) == WithScore(m, v)
  {
    if m != [] {
      SortByScoreStable(m[1..], v);
      InsertByScoreStable(m[0], SortByScore(m[1..]), v);
      assert ([m[0]] + SortByScore(m[1..]))[1..] == SortByScore(m[1..]);
      assert m == [m[0]] + m[1..];
    }
  }

  lemma SortByScoreMembers(m: seq<Match>, x: Match)
    ensures x in SortByScore(m) <==> x in m
  {
    SortByScorePermutes(m);
    assert x in SortByScore(m) <==> x in multiset(SortByScore(m));
    assert x in m <==> x in multiset(m);
  }

  // ---------------------------------------------------------------------------
  // `get_next_available`

  /** `Talent.from_redis(redis, id)` over the talent hashes. */
  function TalentOf(talents: map<string, Hash>, id: string): Option<Talent> {
    LoadTalent(id, HashOf(talents, id))
  }

  /** `talent and talent.available` for the talent stored under `id`. */
  predicate IsAvailable(talents: map<string, Hash>, id: string) {
    TalentOf(talents, id).Some? && TalentOf(talents, id).value.available
  }

  /** The position of the first available candidate in `order`, or `|order|`. */
  function FirstAvailable(order: seq<Match>, talents: map<string, Hash>): (k: nat)
    ensures k <= |order|
    ensures forall i | 0 <= i < k :: !IsAvailable(talents, order[i].talent)
    ensures k < |order| ==> IsAvailable(talents, order[k].talent)
  {
    if order == [] then 0
    else if IsAvailable(talents, order[0].talent) then 0
    else 1 + FirstAvailable(order[1..], talents)
  }

  /**
    The talent `get_next_available` claims for a task, given the task as
    loaded and the talent hashes: none for a missing task or empty matches,
    else the first available candidate in descending score order.
  */
  function NextAvailable(task: Option<Task>, talents: map<string, Hash>): Option<string> {
    if task.None? || task.value.matches == [] then None
    else
      var order := SortByScore(task.value.matches);
      var k := FirstAvailable(order, talents);
      if k < |order| then Some(order[k].talent) else None
  }

  /** The value a claim writes into the talent hash. */
  const CLAIMED: Hash := map[AVAILABLE := "false"]

  /** The talent hashes after the claim of `r`, if any. */
  function ClaimResult(talents: map<string, Hash>, r: Option<string>): map<string, Hash> {
    if r.Some? then talents[r.value := HashOf(talents, r.value) + CLAIMED] else talents
  }

  /**
    `MatchingService.get_next_available`: visits the candidates in descending
    score order and claims the first one whose record exists and is available,
    by writing `available = "false"` to it. The re-check under the lock tests
    the value read before the lock, so it always passes.
  */
  method GetNextAvailable(store: Store, taskId: string) returns (r: Option<string>)
    modifies store
    ensures r == NextAvailable(old(LoadTask(store, taskId)), old(store.talents))
    ensures store.talents == ClaimResult(old(store.talents), r)
    ensures store.tasks == old(store.tasks) && store.active == old(store.active)
  {
    var task := LoadTask(store, taskId);
    if task.None? || task.value.matches == [] {
      return None;
    }
    var order := SortByScore(task.value.matches);
    ghost var talents := store.talents;
    var i := 0;
    while i < |order|
      invariant 0 <= i <= |order|
      invariant i <= FirstAvailable(order, talents)
      invariant store.talents == talents && store.tasks == old(store.tasks)
      invariant store.active == old(store.active)
    {
      var id := order[i].talent;
      var talent := TalentOf(store.talents, id);
      if talent.Some? && talent.value.available {
        if talent.value.available {
          assert IsAvailable(talents, order[i].talent);
          assert FirstAvailable(order, talents) == i;
          assert NextAvailable(task, talents) == Some(id);
          store.HSetTalent(id, CLAIMED);
          return Some(id);
        }
      }
      assert !IsAvailable(talents, order[i].talent);
      i := i + 1;
    }
    assert FirstAvailable(order, talents) == |order|;
    assert NextAvailable(task, talents) == None;
    return None;
  }

  /** A claimed talent was available, is one of the task's candidates, and no available candidate scores higher. */
  lemma NextAvailableIsBestAvailable(task: Option<Task>, talents: map<string, Hash>)
    requires NextAvailable(task, talents).Some?
    ensures task.Some?
    ensures IsAvailable(talents, NextAvailable(task, talents).value)
    ensures exists x | x in task.value.matches ::
              (x.talent == NextAvailable(task, talents).value
               && forall y | y in task.value.matches && IsAvailable(talents, y.talent) :: y.score <= x.score)
  {
    var m := task.value.matches;
    var order := SortByScore(m);
    var k := FirstAvailable(order, talents);
    assert k < |order|;
    var x := order[k];
    assert x.talent == NextAvailable(task, talents).value;
    SortByScoreMembers(m, x);
    SortByScoreSorted(m);
    forall y | y in m && IsAvailable(talents, y.talent)
      ensures y.score <= x.score
    {
      SortByScoreMembers(m, y);
      FirstAvailableScoresHighest(order, talents, y);
    }
    assert x in m;
  }

  /** In a list sorted by descending score, no available entry outscores the first available one. */
  lemma FirstAvailableScoresHighest(order: seq<Match>, talents: map<string, Hash>, y: Match)
    requires SortedDesc(order) && y in order && IsAvailable(talents, y.talent)
    ensures FirstAvailable(order, talents) < |order|
    ensures y.score <= order[FirstAvailable(order, talents)].score
  {
    var p :| 0 <= p < |order| && order[p] == y;
    assert FirstAvailable(order, talents) <= p;
  }

  /** No claim means no candidate of an existing task is available. */
  lemma NoneAvailable(task: Option<Task>, talents: map<string, Hash>)
    requires task.Some? && NextAvailable(task, talents).None?
    ensures forall y | y in task.value.matches :: !IsAvailable(talents, y.talent)
  {
    var m := task.value.matches;
    forall y | y in m
      ensures !IsAvailable(talents, y.talent)
    {
      SortByScoreMembers(m, y);
    }
  }

  /** Claiming changes exactly the claimed talent, and it then reads as unavailable. */
  lemma ClaimMarksUnavailable(talents: map<string, Hash>, id: string)
    requires IsAvailable(talents, id)
    ensures !IsAvailable(ClaimResult(talents, Some(id)), id)
    ensures forall other | other != id :: HashOf(ClaimResult(talents, Some(id)), other) == HashOf(talents, other)
  {
    var h := HashOf(talents, id);
    ClaimedTalentIsUnavailable(id, h);
    assert h + CLAIMED == h[AVAILABLE := "false"];
  }

  // ---------------------------------------------------------------------------
  // `get_best_match`

  /** The first entry with the highest score, as Python's `max` picks it. */
  function BestIndex(m: seq<Match>): (k: nat)
    requires |m| > 0
    ensures k < |m|
    ensures forall i | 0 <= i < |m| :: m[i].score <= m[k].score
    ensures forall i | 0 <= i < k :: m[i].score < m[k].score
  {
    if |m| == 1 then 0
    else
      var k := BestIndex(m[..|m| - 1]);
      if m[|m| - 1].score > m[k].score then |m| - 1 else k
  }

  /**
    `MatchingService.get_best_match`: none for a missing task or empty
    matches, otherwise a talent with the highest score, regardless of
    availability.
  */
  function GetBestMatch(task: Option<Task>): (r: Option<string>)
    ensures r.Some? <==> task.Some? && task.value.matches != []
    ensures r.Some? ==> exists x | x in task.value.matches ::
              (x.talent == r.value && forall y | y in task.value.matches :: y.score <= x.score)
  {
    if task.None? || task.value.matches == [] then None
    else
      var m := task.value.matches;
      var k := BestIndex(m);
      assert m[k] in m;
      Some(m[k].talent)
  }

  lemma {:induction false} WithScoreHead(s: seq<Match>, k: nat, v: int)
    requires k < |s| && s[k].score == v
    requires forall i | 0 <= i < k :: s[i].score != v
    ensures WithScore(s, v) != [] && WithScore(s, v)[0] == s[k]
  {
    if k > 0 {
      WithScoreHead(s[1..], k - 1, v);
    }
  }

  /** The first candidate visited is the best match: both break ties by insertion order. */
  lemma SortHeadIsBest(m: seq<Match>)
    requires |m| > 0
    ensures |SortByScore(m)| == |m| && SortByScore(m)[0] == m[BestIndex(m)]
  {
    var order := SortByScore(m);
    var b := BestIndex(m);
    var v := m[b].score;
    SortByScorePermutes(m);
    assert |order| == |multiset(order)| == |m|;
    SortByScoreSorted(m);
    SortByScoreMembers(m, order[0]);
    SortByScoreMembers(m, m[b]);
    var p :| 0 <= p < |order| && order[p] == m[b];
    assert order[0].score == v;
    WithScoreHead(order, 0, v);
    WithScoreHead(m, b, v);
    SortByScoreStable(m, v);
  }

  /** When the best match is available, it is the talent the scan claims. */
  lemma NextAvailableIsBestMatch(task: Option<Task>, talents: map<string, Hash>)
    requires GetBestMatch(task).Some? && IsAvailable(talents, GetBestMatch(task).value)
    ensures NextAvailable(task, talents) == GetBestMatch(task)
  {
    SortHeadIsBest(task.value.matches);
  }
}
