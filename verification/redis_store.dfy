/**
  The key-value store the services share, reduced to what the core uses:
  string hashes under "task:<id>" and "talent:<id>", and the sorted set
  "assignments:active" of task ids scored by deadline.
*/
module RedisStore {
  import opened Wrappers

  /** A Redis hash: field name to string value. */
  type Hash = map<string, string>

  /** `HGET`: the value of one field, if present. */
  function Get(h: Hash, field: string): Option<string> {
    if field in h then Some(h[field]) else None
  }

  /** `HGETALL`: a missing key reads as the empty hash. */
  function HashOf(hashes: map<string, Hash>, key: string): Hash {
    if key in hashes then hashes[key] else map[]
  }

  /** One member of a sorted set with its score. */
  datatype ScoredId = ScoredId(member: string, score: int)

  /** A sorted set as `ZRANGE` lists it: each member once, scores non-decreasing. */
  predicate IsSortedSet(s: seq<ScoredId>) {
    && (forall i, j | 0 <= i < j < |s| :: s[i].member != s[j].member)
    && (forall i, j | 0 <= i < j < |s| :: s[i].score <= s[j].score)
  }

  type SortedSet = s: seq<ScoredId> | IsSortedSet(s) witness []

  /**
    The store. The "task:" and "talent:" key spaces cannot overlap, so each is
    kept as its own map from id to hash.
  */
  class Store {
    var tasks: map<string, Hash>
    var talents: map<string, Hash>
    var active: SortedSet

    constructor (tasks: map<string, Hash>, talents: map<string, Hash>, active: SortedSet)
      ensures this.tasks == tasks && this.talents == talents && this.active == active
    {
      this.tasks := tasks;
      this.talents := talents;
      this.active := active;
    }

    function TaskHash(id: string): Hash
      reads this
    {
      HashOf(tasks, id)
    }

    function TalentHash(id: string): Hash
      reads this
    {
      HashOf(talents, id)
    }

    /**
      `HSET task:<id> mapping=fields`: the given fields are written over the
      existing ones, other fields are kept, and a missing hash is created.
    */
    method HSetTask(id: string, fields: Hash)
      modifies this
      ensures tasks == old(tasks)[id := old(TaskHash(id)) + fields]
      ensures talents == old(talents) && active == old(active)
    {
      tasks := tasks[id := TaskHash(id) + fields];
    }

    /** `HSET talent:<id> mapping=fields`. */
    method HSetTalent(id: string, fields: Hash)
      modifies this
      ensures talents == old(talents)[id := old(TalentHash(id)) + fields]
      ensures tasks == old(tasks) && active == old(active)
    {
      talents := talents[id := TalentHash(id) + fields];
    }
  }
}
