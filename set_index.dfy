/** Maps from a key to a set, as `std::unordered_map<K, std::set<X>>` is used by the
    entity and component managers. Indexing such a map with `operator[]` creates an
    empty set for a missing key, so a lookup and an insertion both see "absent" as "{}". */
module SetIndex {

  /** The set recorded under `k`, or the empty set when `k` has no entry. */
  function Members<K, X>(idx: map<K, set<X>>, k: K): set<X>
  {
    if k in idx then idx[k] else {}
  }

  /** `idx[k].insert(x)`: the entry for `k` is created when missing and gains `x`;
      every other entry is left as it was. */
  function Insert<K, X>(idx: map<K, set<X>>, k: K, x: X): (r: map<K, set<X>>)
  {
    idx[k := Members(idx, k) + {x}]
  }

  /** After `Insert`, `k` has an entry holding `x` and everything it held before; every
      other key keeps its entry, and no key but `k` is added. */
  lemma InsertEffects<K, X>(idx: map<K, set<X>>, k: K, x: X)
    ensures var r := Insert(idx, k, x);
      && r.Keys == idx.Keys + {k} && Members(r, k) == Members(idx, k) + {x}
      && forall j :: j != k ==> Members(r, j) == Members(idx, j)
  {
  }

  /** Inserting the same member twice is the same as inserting it once. */
  lemma InsertIdempotent<K, X>(idx: map<K, set<X>>, k: K, x: X)
    ensures Insert(Insert(idx, k, x), k, x) == Insert(idx, k, x)
  {
  }
}
