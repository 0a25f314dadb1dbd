/** The process cache (src/util/Cache.ts): an in-memory map from request URL to
    the parsed JSON body fetched from it. Entries are never evicted and the
    time-to-live argument of `set` is ignored. */
module ProcessCache {
  import opened JsValue

  /** The property names every plain JavaScript object inherits from
      `Object.prototype`. The JavaScript `in` operator finds them on `{}`. */
  const InheritedKeys: set<string> := {
    "constructor", "hasOwnProperty", "isPrototypeOf", "propertyIsEnumerable",
    "toLocaleString", "toString", "valueOf", "__proto__",
    "__defineGetter__", "__defineSetter__", "__lookupGetter__", "__lookupSetter__"
  }

  /** `key in this.cacheInstance` exactly as written: the cache instance is a
      plain object, so `in` also sees the inherited names. */
  predicate HasAsWritten(entries: map<string, Value>, key: string)
    ensures key in InheritedKeys ==> HasAsWritten(entries, key)
    ensures key !in InheritedKeys ==> (HasAsWritten(entries, key) <==> key in entries)
  {
    key in entries || key in InheritedKeys
  }

  /** A cache that nothing was ever stored in still reports a hit for an
      inherited name such as "constructor", so a fetch of that key would answer
      from the cache without touching the network. */
  lemma FreshCacheReportsInheritedKey()
    ensures var empty: map<string, Value> := map[];
            "constructor" !in empty && HasAsWritten(empty, "constructor")
  {
  }

  /** The cache, with `has` corrected to mean "an entry was stored under this key". */
  class Cache {
    var entries: map<string, Value>

    /** A new cache holds no entries. */
    constructor()
      ensures entries == map[]
      ensures forall key :: !Has(key)
    {
      entries := map[];
    }

    /** `has(key)`: true exactly for the keys stored with `set`. It agrees
        with the as-written test on every name that is not inherited, and it
        never reports a hit that test would miss. */
    predicate Has(key: string)
      reads this
      ensures Has(key) ==> HasAsWritten(entries, key)
      ensures key !in InheritedKeys ==> (Has(key) <==> HasAsWritten(entries, key))
    {
      key in entries
    }

    /** `get(key)`: the stored value, `undefined` when there is none. A query:
        it reads the cache and changes nothing. */
    function Get(key: string): (r: Value)
      reads this
      ensures Has(key) ==> r == entries[key]
      ensures !Has(key) ==> r == Undefined
    {
      if key in entries then entries[key] else Undefined
    }

    /** `set(key, value, ttl)`: stores `value` under `key`, replacing any earlier
        value. `ttl` does not affect what is stored; nothing ever expires. */
    method Set(key: string, value: Value, ttl: int)
      modifies this
      ensures entries == old(entries)[key := value]
      ensures Has(key) && Get(key) == value
      ensures forall k | k != key :: Has(k) == old(Has(k)) && Get(k) == old(Get(k))
    {
      entries := entries[key := value];
    }
  }
}
