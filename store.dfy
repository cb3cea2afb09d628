/**
 * The key-value store (Redis) behind the service's GetRedisData and
 * SetRedisData, under an abstract clock measured in Unix seconds. Keys
 * written with a time-to-live stop being visible once it has elapsed.
 */
module Store {
  import opened Wrappers

  datatype Entry = Entry(value: string, expiresAt: int)

  /** The value visible under `key` at time `now`, if the key is present and unexpired. */
  function Visible(entries: map<string, Entry>, key: string, now: int): (v: Option<string>)
    ensures v.Some? <==> key in entries && now < entries[key].expiresAt
    ensures v.Some? ==> v.value == entries[key].value
  {
    if key in entries && now < entries[key].expiresAt then Some(entries[key].value) else None
  }

  class KeyValueStore {
    var entries: map<string, Entry>
    /** Whether the store answers; when it does not, every call fails. */
    var reachable: bool

    constructor (reachable: bool)
      ensures entries == map[] && this.reachable == reachable
    {
      entries := map[];
      this.reachable := reachable;
    }

    /** SET key value EX ttl: on success the key holds `value` until `now + ttl`. */
    method Set(key: string, value: string, ttl: int, now: int) returns (err: Option<string>)
      modifies this
      ensures reachable == old(reachable)
      ensures err.None? <==> reachable
      ensures entries == if reachable then old(entries)[key := Entry(value, now + ttl)] else old(entries)
    {
      if !reachable {
        return Some("store unreachable");
      }
      entries := entries[key := Entry(value, now + ttl)];
      return None;
    }

    /** GET key: the visible value, None for a missing or expired key, an error when unreachable. */
    method Get(key: string, now: int) returns (r: Result<Option<string>>)
      ensures r.Err? <==> !reachable
      ensures r.Ok? ==> r.value == Visible(entries, key, now)
    {
      if !reachable {
        return Err("store unreachable");
      }
      return Ok(Visible(entries, key, now));
    }
  }

  /** A key written with a time-to-live reads back exactly while that time has not elapsed. */
  lemma WriteThenRead(entries: map<string, Entry>, key: string, value: string, ttl: int, written: int, now: int)
    ensures Visible(entries[key := Entry(value, written + ttl)], key, now) ==
            (if now < written + ttl then Some(value) else None)
  {
  }

  /** Writing one key leaves what every other key reads unchanged. */
  lemma WriteIsLocal(entries: map<string, Entry>, key: string, other: string, e: Entry, now: int)
    requires other != key
    ensures Visible(entries[key := e], other, now) == Visible(entries, other, now)
  {
  }
}
