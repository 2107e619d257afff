/**
 * The key/value store (Ionic Storage over localForage) as a map from
 * string keys to values, with the two access patterns the services use:
 * a read by key and a full scan filtered by `key.indexOf(needle) > -1`.
 */
module KeyValue {

  import opened Wrappers
  import Text

  /** `storage.get(key)`: the stored value, or nothing (null) when absent. */
  function Lookup<V>(m: map<string, V>, key: string): (r: Option<V>)
    ensures r.Some? <==> key in m
    ensures r.Some? ==> r.value == m[key]
  {
    if key in m then Some(m[key]) else None
  }

  /** The keys of `m` that contain `needle`. */
  ghost function MatchingKeys<V>(m: map<string, V>, needle: string): set<string> {
    set k | k in m && Text.Contains(k, needle)
  }

  /**
   * `values` holds exactly the stored values whose keys contain `needle`,
   * one entry per matching key.
   */
  ghost predicate IsScan<V>(m: map<string, V>, needle: string, values: seq<V>) {
    && |values| == |MatchingKeys(m, needle)|
    && (forall k :: k in m && Text.Contains(k, needle) ==> m[k] in values)
    && (forall v :: v in values ==> exists k :: k in m && Text.Contains(k, needle) && m[k] == v)
  }

  /** `keys` are the distinct matching keys, `values[i]` stored under `keys[i]`. */
  ghost predicate ScanPairing<V>(m: map<string, V>, needle: string, values: seq<V>, keys: seq<string>) {
    && |values| == |keys|
    && (forall i :: 0 <= i < |keys| ==> keys[i] in m && values[i] == m[keys[i]])
    && (forall k :: k in keys <==> k in m && Text.Contains(k, needle))
    && (forall i, j :: 0 <= i < j < |keys| ==> keys[i] != keys[j])
  }

  /**
   * `storage.forEach` collecting every value whose key contains `needle`.
   * The ghost `keys` lists the matching keys in the order visited; the
   * driver's iteration order is left unspecified.
   */
  method ScanContaining<V>(m: map<string, V>, needle: string) returns (values: seq<V>, ghost keys: seq<string>)
    ensures IsScan(m, needle, values)
    ensures ScanPairing(m, needle, values, keys)
  {
    values, keys := [], [];
    var remaining := m.Keys;
    while remaining != {}
      invariant remaining <= m.Keys
      invariant |values| == |keys|
      invariant forall i :: 0 <= i < |keys| ==> keys[i] in m && values[i] == m[keys[i]]
      invariant forall k :: k in keys <==> k in m && k !in remaining && Text.Contains(k, needle)
      invariant forall i, j :: 0 <= i < j < |keys| ==> keys[i] != keys[j]
      decreases remaining
    {
      var key :| key in remaining;
      var hit := Text.Contains(key, needle);
      if hit {
        values, keys := values + [m[key]], keys + [key];
      }
      remaining := remaining - {key};
    }
    DistinctCount(keys);
    assert (set k | k in keys) == MatchingKeys(m, needle);
    ScannedValues(m, needle, values, keys);
  }

  /** A sequence without repeats has as many distinct elements as entries. */
  lemma {:induction false} DistinctCount(keys: seq<string>)
    requires forall i, j :: 0 <= i < j < |keys| ==> keys[i] != keys[j]
    ensures |set k | k in keys| == |keys|
    decreases |keys|
  {
    if keys != [] {
      var rest := keys[1..];
      DistinctCount(rest);
      assert (set k | k in keys) == (set k | k in rest) + {keys[0]};
      assert keys[0] !in rest;
    }
  }

  /** What a scan's pairing of values with matching keys says about the values alone. */
  lemma ScannedValues<V>(m: map<string, V>, needle: string, values: seq<V>, keys: seq<string>)
    requires |values| == |keys|
    requires forall i :: 0 <= i < |keys| ==> keys[i] in m && values[i] == m[keys[i]]
    requires forall k :: k in keys <==> k in m && Text.Contains(k, needle)
    ensures forall k :: k in m && Text.Contains(k, needle) ==> m[k] in values
    ensures forall v :: v in values ==> exists k :: k in m && Text.Contains(k, needle) && m[k] == v
  {
  }

}
