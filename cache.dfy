/** The Redis-backed cache helper: `getCachedData` and `setCachedData` over a
    single shared key-value store whose entries carry a lease (Redis SETEX).
    The clock and the backend's availability are parameters of each call. */
module Cache {
  import opened Wrappers
  import Json

  /** `setCachedData(key, value, expiry = 3600)`: the lease in seconds when none is given. */
  const DefaultExpiry := 3600

  /** What the backend holds under a key: the stored text and the instant (in seconds) its lease ends. */
  datatype Entry = Entry(data: string, expiresAt: int)

  type Store = map<string, Entry>

  /** Redis GET at time `now`: the stored text while its lease runs. */
  function Fetch(store: Store, key: string, now: int): (r: Option<string>)
    ensures r.Some? <==> key in store && now < store[key].expiresAt
    ensures r.Some? ==> r.value == store[key].data
  {
    if key in store && now < store[key].expiresAt then Some(store[key].data) else None
  }

  /** `getCachedData(key)`: `JSON.parse` of the stored text, or `null` when the key is
      absent or expired, the text is empty, the text does not parse, or the backend fails. */
  function Read(store: Store, key: string, now: int, up: bool): Option<string>
  {
    if !up then None
    else
      match Fetch(store, key, now)
      case Some(data) => if data != "" then Json.ParseString(data) else None
      case None => None
  }

  /** `setCachedData(key, value, expiry)`: SETEX with `JSON.stringify(value)`. An unreachable
      backend, or Redis refusing a lease that is not positive, throws; the helper swallows it
      and the store keeps what it had. */
  function Write(store: Store, key: string, value: string, expiry: int, now: int, up: bool): (r: Store)
    ensures !up || expiry <= 0 ==> r == store
    ensures up && expiry > 0 ==> r.Keys == store.Keys + {key}
    ensures up && expiry > 0 ==> r[key] == Entry(Json.Quote(value), now + expiry)
    ensures forall k :: k in store && k != key ==> r[k] == store[k]
  {
    if up && expiry > 0 then store[key := Entry(Json.Quote(value), now + expiry)] else store
  }

  /** A key that was never written reads as `null`. */
  lemma ReadAbsent(store: Store, key: string, now: int, up: bool)
    requires key !in store
    ensures Read(store, key, now, up) == None
  {
  }

  /** A failing backend never fails the caller: the read degrades to `null`. */
  lemma ReadWhenDown(store: Store, key: string, now: int)
    ensures Read(store, key, now, false) == None
  {
  }

  /** A successful write is read back unchanged for as long as its lease runs:
      `JSON.parse(JSON.stringify(v)) === v` on strings. */
  lemma ReadAfterWrite(store: Store, key: string, value: string, expiry: int, now: int, later: int)
    requires expiry > 0 && now <= later < now + expiry
    ensures Read(Write(store, key, value, expiry, now, true), key, later, true) == Some(value)
  {
    Json.ParseQuote(value);
  }

  /** Once the lease has run out the entry reads as `null`. */
  lemma ReadAfterExpiry(store: Store, key: string, value: string, expiry: int, now: int, later: int, up: bool)
    requires expiry > 0 && later >= now + expiry
    ensures Read(Write(store, key, value, expiry, now, true), key, later, up) == None
  {
  }

  /** Writing one key changes no read of any other key. */
  lemma WriteOtherKey(store: Store, key: string, other: string, value: string, expiry: int, now: int, up: bool,
                      later: int, upLater: bool)
    requires other != key
    ensures Read(Write(store, key, value, expiry, now, up), other, later, upLater) == Read(store, other, later, upLater)
  {
  }

  /** Writing an existing key replaces its value and restarts its lease, whatever it held before. */
  lemma WriteReplaces(store: Store, key: string, value: string, expiry: int, now: int, later: int)
    requires key in store && expiry > 0 && now <= later < now + expiry
    ensures Write(store, key, value, expiry, now, true)[key].expiresAt == now + expiry
    ensures Read(Write(store, key, value, expiry, now, true), key, later, true) == Some(value)
  {
    ReadAfterWrite(store, key, value, expiry, now, later);
  }

  /** Storing the same value twice is the same as storing it once. */
  lemma WriteTwice(store: Store, key: string, value: string, expiry: int, now: int, up: bool)
    ensures Write(Write(store, key, value, expiry, now, up), key, value, expiry, now, up)
         == Write(store, key, value, expiry, now, up)
  {
  }

  /** With the default lease an entry is served for 3600 seconds and not a second longer. */
  lemma DefaultLease(store: Store, key: string, value: string, now: int)
    ensures Read(Write(store, key, value, DefaultExpiry, now, true), key, now + 3599, true) == Some(value)
    ensures Read(Write(store, key, value, DefaultExpiry, now, true), key, now + 3600, true) == None
  {
    ReadAfterWrite(store, key, value, DefaultExpiry, now, now + 3599);
  }

  /** The single cache instance shared by every request (the module-level Redis `client`). */
  class TtlCache {
    var entries: Store

    constructor ()
      ensures entries == map[]
    {
      entries := map[];
    }

    /** `getCachedData(key)` at time `now`; `up` tells whether the backend answers. */
    method Get(key: string, now: int, up: bool) returns (v: Option<string>)
      ensures v == Read(entries, key, now, up)
    {
      if !up {
        return None;
      }
      var data := Fetch(entries, key, now);
      if data.Some? && data.value != "" {
        v := Json.ParseString(data.value);
      } else {
        v := None;
      }
    }

    /** `setCachedData(key, value, expiry)`; `expiry == None` is the default of 3600 seconds. */
    method Set(key: string, value: string, expiry: Option<int>, now: int, up: bool)
      modifies this
      ensures entries == Write(old(entries), key, value, if expiry.Some? then expiry.value else DefaultExpiry, now, up)
    {
      var lease := if expiry.Some? then expiry.value else DefaultExpiry;
      if up && lease > 0 {
        entries := entries[key := Entry(Json.Quote(value), now + lease)];
      }
    }
  }
}
