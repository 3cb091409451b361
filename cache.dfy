/** The get-or-create step that both flyweight factories perform on their
    dictionary, stated on values: given the dictionary, the key and the object
    the factory would build on a miss, it yields the new dictionary and the
    object handed back to the caller. */
module Cache {

  /** One lookup: a hit returns the stored value and leaves the map alone; a
      miss stores `created` under `key` and returns it. */
  function GetOrCreate<V>(m: map<string, V>, key: string, created: V): (r: (map<string, V>, V))
    ensures key in r.0 && r.0[key] == r.1
    ensures r.1 == if key in m then m[key] else created
    ensures r.0.Keys == m.Keys + {key}
    ensures forall k :: k in m ==> k in r.0 && r.0[k] == m[k]
    ensures |r.0| == if key in m then |m| else |m| + 1
  {
    if key in m then (m, m[key]) else (m[key := created], created)
  }

  /** A second lookup of the same key, whatever object it would have built,
      returns what the first one returned and does not change the map. */
  lemma GetOrCreateIdempotent<V>(m: map<string, V>, key: string, first: V, second: V)
    ensures var (m1, v1) := GetOrCreate(m, key, first);
            GetOrCreate(m1, key, second) == (m1, v1)
  {
  }

  /** The map only grows: no entry is removed or replaced, and at most one is
      added. */
  ghost predicate Extends<V>(before: map<string, V>, after: map<string, V>)
  {
    && before.Keys <= after.Keys
    && (forall k :: k in before ==> after[k] == before[k])
  }

  /** Runs the lookups of `keys` in order, the i-th miss building `make(i)`;
      yields the final map. */
  function GetOrCreateAll<V>(m: map<string, V>, keys: seq<string>, make: nat -> V): (r: map<string, V>)
    decreases |keys|
  {
    if keys == [] then m
    else GetOrCreateAll(GetOrCreate(m, keys[0], make(0)).0, keys[1..], i => make(i + 1))
  }

  /** After any sequence of lookups the original entries survive unchanged,
      every key looked up is present, no other key was added, and the map grew
      by at most one entry per lookup. */
  lemma {:induction false} GetOrCreateAllGrows<V>(m: map<string, V>, keys: seq<string>, make: nat -> V)
    ensures Extends(m, GetOrCreateAll(m, keys, make))
    ensures GetOrCreateAll(m, keys, make).Keys == m.Keys + set k | k in keys
    ensures |GetOrCreateAll(m, keys, make)| <= |m| + |keys|
    decreases |keys|
  {
    if keys != [] {
      var m1 := GetOrCreate(m, keys[0], make(0)).0;
      GetOrCreateAllGrows(m1, keys[1..], i => make(i + 1));
      KeysOfCons(keys);
    }
  }

  lemma KeysOfCons(keys: seq<string>)
    requires keys != []
    ensures (set k | k in keys) == {keys[0]} + set k | k in keys[1..]
  {
    assert keys == [keys[0]] + keys[1..];
  }
}
