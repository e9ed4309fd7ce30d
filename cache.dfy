/**
 * The service's in-memory cache: a map from keys to entries that carry the
 * moment they were stored and how long they live. Entries expire lazily: a
 * read of an expired or missing key deletes it. The clock (`Date.now()`) is a
 * parameter of every operation that consults it.
 */
module TtlCache {
  import opened Wrappers

  datatype Entry<T> = Entry(data: T, timestamp: int, ttl: int)

  /** `Date.now() - cached.timestamp < cached.ttl`: strictly younger than its lifetime. */
  predicate Live<T>(e: Entry<T>, now: int) {
    now - e.timestamp < e.ttl
  }

  /** What a read at `now` returns from `entries`. */
  function Lookup<T>(entries: map<string, Entry<T>>, key: string, now: int): (r: Option<T>)
    ensures r.Some? <==> key in entries && Live(entries[key], now)
    ensures r.Some? ==> r.value == entries[key].data
  {
    if key in entries && Live(entries[key], now) then Some(entries[key].data) else None
  }

  /** What a read at `now` leaves in `entries`: the key is deleted unless it was returned. */
  function AfterLookup<T>(entries: map<string, Entry<T>>, key: string, now: int): (r: map<string, Entry<T>>)
    ensures Lookup(entries, key, now).Some? ==> r == entries
    ensures Lookup(entries, key, now).None? ==> key !in r && forall k :: k != key ==> (k in r <==> k in entries)
    ensures forall k :: k in r ==> k in entries && r[k] == entries[k]
  {
    if Lookup(entries, key, now).Some? then entries else entries - {key}
  }

  class Cache<T> {
    var entries: map<string, Entry<T>>

    constructor()
      ensures entries == map[]
    {
      entries := map[];
    }

    /** `getFromCache`: the stored value if its entry is live at `now`; otherwise the key is deleted. */
    method Get(key: string, now: int) returns (r: Option<T>)
      modifies this
      ensures r == Lookup(old(entries), key, now)
      ensures entries == AfterLookup(old(entries), key, now)
    {
      if key in entries && now - entries[key].timestamp < entries[key].ttl {
        return Some(entries[key].data);
      }
      entries := entries - {key};
      return None;
    }

    /** `setCache`: store `data` under `key`, stamped with `now`, replacing any earlier entry. */
    method Set(key: string, data: T, ttl: int, now: int)
      modifies this
      ensures entries == old(entries)[key := Entry(data, now, ttl)]
    {
      entries := entries[key := Entry(data, now, ttl)];
    }

    /** `clearCache`: forget every entry. */
    method Clear()
      modifies this
      ensures entries == map[]
    {
      entries := map[];
    }
  }

  /**
   * A value just stored is read back while younger than its lifetime, and is
   * gone from the moment `timestamp + ttl` is reached; a positive lifetime
   * makes it readable at the instant it was stored.
   */
  lemma StoredValueLifetime<T>(entries: map<string, Entry<T>>, key: string, data: T, ttl: int, stored: int, now: int)
    ensures var e := entries[key := Entry(data, stored, ttl)];
            (now < stored + ttl ==> Lookup(e, key, now) == Some(data)) &&
            (now >= stored + ttl ==> Lookup(e, key, now) == None && key !in AfterLookup(e, key, now))
    ensures ttl > 0 ==> Lookup(entries[key := Entry(data, stored, ttl)], key, stored) == Some(data)
  {
  }

  /** Storing or reading one key does not change what any other key reads. */
  lemma OtherKeysUntouched<T>(entries: map<string, Entry<T>>, key: string, other: string, e: Entry<T>, now: int, later: int)
    requires other != key
    ensures Lookup(entries[key := e], other, later) == Lookup(entries, other, later)
    ensures Lookup(AfterLookup(entries, key, now), other, later) == Lookup(entries, other, later)
  {
  }
}
