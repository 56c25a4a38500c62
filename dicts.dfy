/**
 * What `dict(pairs)` does with the list of evaluated (key, value) pairs:
 * insert them one after the other, a key equal to one already present
 * overwriting that entry's value, and raise TypeError on an unhashable key.
 * A dict is represented by its entries in insertion order.
 */
module Dicts {

  import opened Wrappers
  import opened Values
  import opened Errors

  type Entries = seq<(Value, Value)>

  function KeysOf(e: Entries): set<Value> {
    set p | p in e :: p.0
  }

  function ValuesOf(e: Entries): set<Value> {
    set p | p in e :: p.1
  }

  /** No two entries have keys that Python considers equal. */
  predicate DistinctKeys(e: Entries) {
    forall i, j :: 0 <= i < j < |e| ==> !SameKey(e[i].0, e[j].0)
  }

  /** `d.get(k)`: the value of the first entry whose key equals `k`. */
  function Lookup(e: Entries, k: Value): Option<Value> {
    if e == [] then None
    else if SameKey(e[0].0, k) then Some(e[0].1)
    else Lookup(e[1..], k)
  }

  /** A lookup finds nothing exactly when no key equals `k`, and otherwise the value of an entry whose key does. */
  lemma {:induction false} LookupMeaning(e: Entries, k: Value)
    ensures Lookup(e, k).None? <==> forall i :: 0 <= i < |e| ==> !SameKey(e[i].0, k)
    ensures Lookup(e, k).Some? ==> exists i :: 0 <= i < |e| && SameKey(e[i].0, k) && Lookup(e, k).value == e[i].1
    decreases |e|
  {
    if e != [] && !SameKey(e[0].0, k) {
      LookupMeaning(e[1..], k);
      assert forall i :: 1 <= i < |e| ==> e[i] == e[1..][i - 1];
    }
  }

  /**
   * `d[k] = v`: an entry with an equal key keeps its place and its key object
   * and takes the new value; otherwise the pair is appended.
   */
  function Insert(e: Entries, k: Value, v: Value): Entries {
    if e == [] then [(k, v)]
    else if SameKey(e[0].0, k) then [(e[0].0, v)] + e[1..]
    else [e[0]] + Insert(e[1..], k, v)
  }

  /** Inserting a present key keeps every key in place; inserting a new one appends the pair. */
  lemma {:induction false} InsertShape(e: Entries, k: Value, v: Value)
    ensures Lookup(e, k).Some? ==>
      |Insert(e, k, v)| == |e| && forall i :: 0 <= i < |e| ==> Insert(e, k, v)[i].0 == e[i].0
    ensures Lookup(e, k).None? ==> Insert(e, k, v) == e + [(k, v)]
    decreases |e|
  {
    if e != [] && !SameKey(e[0].0, k) {
      InsertShape(e[1..], k, v);
      assert e == [e[0]] + e[1..];
    }
  }

  /** Inserting adds at most the new key and the new value. */
  lemma {:induction false} InsertParts(e: Entries, k: Value, v: Value)
    ensures KeysOf(Insert(e, k, v)) <= KeysOf(e) + {k}
    ensures ValuesOf(Insert(e, k, v)) <= ValuesOf(e) + {v}
    decreases |e|
  {
    if e == [] {
    } else if SameKey(e[0].0, k) {
      var r := Insert(e, k, v);
      assert forall p :: p in r ==> p == r[0] || p in e;
    } else {
      var t := Insert(e[1..], k, v);
      InsertParts(e[1..], k, v);
      assert Insert(e, k, v) == [e[0]] + t;
      forall p | p in Insert(e, k, v)
        ensures p.0 in KeysOf(e) + {k} && p.1 in ValuesOf(e) + {v}
      {
        if p == e[0] {
          assert e[0] in e;
        } else {
          assert p in t && p.0 in KeysOf(t) && p.1 in ValuesOf(t);
          assert forall q :: q in e[1..] ==> q in e;
        }
      }
    }
  }

  /** `dict(pairs)`: the pairs inserted in order into an empty dict. */
  function FromPairs(pairs: Entries): Result<Entries, Error> {
    if pairs == [] then Ok([])
    else
      var built :- FromPairs(pairs[..|pairs| - 1]);
      var (k, v) := pairs[|pairs| - 1];
      if Hashable(k) then Ok(Insert(built, k, v)) else Err(HostException(TypeError))
  }

  /** The reference meaning of a dict display: the value of the LAST pair whose key equals `k`. */
  function LastValue(pairs: Entries, k: Value): Option<Value> {
    if pairs == [] then None
    else if SameKey(pairs[|pairs| - 1].0, k) then Some(pairs[|pairs| - 1].1)
    else LastValue(pairs[..|pairs| - 1], k)
  }

  lemma InsertKeepsKeysDistinct(e: Entries, k: Value, v: Value)
    requires DistinctKeys(e)
    ensures DistinctKeys(Insert(e, k, v))
  {
    LookupMeaning(e, k);
    InsertShape(e, k, v);
  }

  lemma {:induction false} LookupInsert(e: Entries, k: Value, v: Value, q: Value)
    ensures Lookup(Insert(e, k, v), q) == if SameKey(k, q) then Some(v) else Lookup(e, q)
    decreases e
  {
    if e == [] {
    } else if SameKey(e[0].0, k) {
      var r := Insert(e, k, v);
      assert r == [(e[0].0, v)] + e[1..];
      assert r[1..] == e[1..];
      if SameKey(e[0].0, q) {
        SameKeySymmetric(e[0].0, k);
        SameKeyTransitive(k, e[0].0, q);
        assert Lookup(r, q) == Some(v);
      } else {
        if SameKey(k, q) {
          SameKeyTransitive(e[0].0, k, q);
        }
        assert !SameKey(k, q);
        assert Lookup(r, q) == Lookup(e[1..], q) == Lookup(e, q);
      }
    } else {
      var t := Insert(e[1..], k, v);
      var r := Insert(e, k, v);
      assert r == [e[0]] + t;
      assert r[1..] == t;
      if SameKey(e[0].0, q) {
        if SameKey(k, q) {
          SameKeySymmetric(k, q);
          SameKeyTransitive(e[0].0, q, k);
        }
        assert !SameKey(k, q);
        assert Lookup(r, q) == Some(e[0].1) == Lookup(e, q);
      } else {
        LookupInsert(e[1..], k, v, q);
        assert Lookup(r, q) == Lookup(t, q);
        assert Lookup(e, q) == Lookup(e[1..], q);
      }
    }
  }

  /** `d[k] = v` followed by `d[k]` gives `v`. */
  lemma LookupAfterInsert(e: Entries, k: Value, v: Value)
    ensures Lookup(Insert(e, k, v), k) == Some(v)
  {
    LookupInsert(e, k, v, k);
    SameKeyReflexive(k);
  }

  /** `dict(pairs)` succeeds exactly when every key is hashable. */
  lemma {:induction false} FromPairsSucceeds(pairs: Entries)
    ensures FromPairs(pairs).Ok? <==> forall i :: 0 <= i < |pairs| ==> Hashable(pairs[i].0)
    decreases |pairs|
  {
    if pairs != [] {
      var prefix := pairs[..|pairs| - 1];
      FromPairsSucceeds(prefix);
      if forall i :: 0 <= i < |pairs| ==> Hashable(pairs[i].0) {
        assert forall i :: 0 <= i < |prefix| ==> Hashable(prefix[i].0) by {
          forall i | 0 <= i < |prefix| ensures prefix[i] == pairs[i] { }
        }
      }
    }
  }

  /** The only thing `dict(pairs)` can raise is the TypeError of an unhashable key. */
  lemma {:induction false} FromPairsError(pairs: Entries)
    requires FromPairs(pairs).Err?
    ensures FromPairs(pairs).error == HostException(TypeError)
    decreases |pairs|
  {
    var prefix := pairs[..|pairs| - 1];
    if FromPairs(prefix).Err? {
      FromPairsError(prefix);
    }
  }

  /** The keys of `dict(pairs)` are pairwise distinct. */
  lemma {:induction false} FromPairsDistinct(pairs: Entries)
    requires FromPairs(pairs).Ok?
    ensures DistinctKeys(FromPairs(pairs).value)
    decreases |pairs|
  {
    if pairs != [] {
      var prefix := pairs[..|pairs| - 1];
      FromPairsDistinct(prefix);
      InsertKeepsKeysDistinct(FromPairs(prefix).value, pairs[|pairs| - 1].0, pairs[|pairs| - 1].1);
    }
  }

  /** Every lookup in `dict(pairs)` finds the value of the last pair with that key. */
  lemma {:induction false} FromPairsLookup(pairs: Entries, q: Value)
    requires FromPairs(pairs).Ok?
    ensures Lookup(FromPairs(pairs).value, q) == LastValue(pairs, q)
    decreases |pairs|
  {
    if pairs != [] {
      var prefix := pairs[..|pairs| - 1];
      FromPairsLookup(prefix, q);
      LookupInsert(FromPairs(prefix).value, pairs[|pairs| - 1].0, pairs[|pairs| - 1].1, q);
    }
  }

  /** `dict(pairs)` holds only keys and values taken from the pairs. */
  lemma {:induction false} FromPairsParts(pairs: Entries)
    requires FromPairs(pairs).Ok?
    ensures KeysOf(FromPairs(pairs).value) <= KeysOf(pairs)
    ensures ValuesOf(FromPairs(pairs).value) <= ValuesOf(pairs)
    decreases |pairs|
  {
    if pairs != [] {
      var prefix := pairs[..|pairs| - 1];
      FromPairsParts(prefix);
      InsertParts(FromPairs(prefix).value, pairs[|pairs| - 1].0, pairs[|pairs| - 1].1);
      assert forall p :: p in prefix ==> p in pairs;
      assert pairs[|pairs| - 1] in pairs;
    }
  }

  /** A dict whose keys are already distinct comes back entry for entry. */
  lemma {:induction false} FromDistinctPairs(pairs: Entries)
    requires DistinctKeys(pairs)
    requires forall i :: 0 <= i < |pairs| ==> Hashable(pairs[i].0)
    ensures FromPairs(pairs) == Ok(pairs)
    decreases |pairs|
  {
    if pairs != [] {
      var prefix := pairs[..|pairs| - 1];
      assert forall i :: 0 <= i < |prefix| ==> prefix[i] == pairs[i];
      FromDistinctPairs(prefix);
      LookupMeaning(prefix, pairs[|pairs| - 1].0);
      InsertShape(prefix, pairs[|pairs| - 1].0, pairs[|pairs| - 1].1);
      assert prefix + [pairs[|pairs| - 1]] == pairs;
    }
  }
}
