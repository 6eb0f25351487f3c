/** The Python dictionaries of bitboards the engine keeps its boards in:
    keys in insertion order (iteration follows it) and an entry per key. */
module Dicts {
  import opened Bits

  datatype Dict = Dict(keys: seq<string>, entries: map<string, Bitboard>)
  {
    /** Every key listed once, and exactly the keys that have an entry. */
    ghost predicate Valid() {
      (forall i, j | 0 <= i < j < |keys| :: keys[i] != keys[j])
      && (forall k :: k in entries <==> k in keys)
    }

    /** `d[k] = v`: an existing key keeps its place, a new one goes last. */
    function Put(k: string, v: Bitboard): (r: Dict)
      ensures r.entries == entries[k := v]
      ensures k in entries ==> r.keys == keys
      ensures k !in entries ==> r.keys == keys + [k]
    {
      if k in entries then Dict(keys, entries[k := v]) else Dict(keys + [k], entries[k := v])
    }
  }

  /** Assigning an entry keeps a dictionary well formed. */
  lemma PutValid(d: Dict, k: string, v: Bitboard)
    requires d.Valid()
    ensures d.Put(k, v).Valid()
  {
    var r := d.Put(k, v);
    if k !in d.entries {
      forall i, j | 0 <= i < j < |r.keys|
        ensures r.keys[i] != r.keys[j]
      {
        if j == |d.keys| {
          assert r.keys[i] == d.keys[i];
        }
      }
    }
  }

  /** Validity depends only on the key order and the key set. */
  lemma SameKeysValid(d: Dict, d': Dict)
    requires d.Valid() && d'.keys == d.keys && d'.entries.Keys == d.entries.Keys
    ensures d'.Valid()
  {
  }
}
