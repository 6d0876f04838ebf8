/**
 * The symbol table of src/graph/ST.java: two parallel lists, keys and
 * values, where a lookup returns the value beside the first equal key.
 * Adding never checks for an existing key.
 */
module SymbolTables {
  import opened Wrappers
  import opened Lists

  /** The value paired with the first key equal to `k`, or None (Java null). */
  function Lookup<K(==), V>(keys: seq<K>, vals: seq<V>, k: K): (r: Option<V>)
    requires |keys| == |vals|
    ensures r.None? <==> k !in keys
    ensures r.Some? ==> exists i :: 0 <= i < |keys| && keys[i] == k && vals[i] == r.value && k !in keys[..i]
  {
    if k in keys then Some(vals[IndexOf(keys, k)]) else None
  }

  class ST<K(==), V> {
    var keys: seq<K>
    var vals: seq<V>

    /** The two lists always have the same length. */
    ghost predicate Valid()
      reads this`keys, this`vals
    {
      |keys| == |vals|
    }

    constructor ()
      ensures Valid() && keys == [] && vals == []
    {
      keys := [];
      vals := [];
    }

    /** Appends the pair, even when `key` is already present. */
    method Add(key: K, val: V)
      requires Valid()
      modifies this`keys, this`vals
      ensures Valid()
      ensures keys == old(keys) + [key] && vals == old(vals) + [val]
    {
      keys := keys + [key];
      vals := vals + [val];
    }

    /** Scans the keys in order and returns the value beside the first match. */
    method Get(key: K) returns (r: Option<V>)
      requires Valid()
      ensures r == Lookup(keys, vals, key)
    {
      var i := 0;
      while i < |keys|
        invariant 0 <= i <= |keys|
        invariant key !in keys[..i]
      {
        if keys[i] == key {
          IndexOfUnique(keys, key, i);
          return Some(vals[i]);
        }
        assert keys[..i + 1] == keys[..i] + [keys[i]];
        i := i + 1;
      }
      assert keys[..i] == keys;
      return None;
    }

    /**
     * Removes the first pair whose key equals `key` and returns its value;
     * returns None and changes nothing when no key matches.
     */
    method Remove(key: K) returns (r: Option<V>)
      requires Valid()
      modifies this`keys, this`vals
      ensures Valid()
      ensures r == Lookup(old(keys), old(vals), key)
      ensures key !in old(keys) ==> keys == old(keys) && vals == old(vals)
      ensures key in old(keys) ==>
        var i := IndexOf(old(keys), key);
        keys == Delete(old(keys), i) && vals == Delete(old(vals), i)
    {
      var i := 0;
      while i < |keys|
        invariant 0 <= i <= |keys|
        invariant key !in keys[..i]
      {
        if keys[i] == key {
          IndexOfUnique(keys, key, i);
          r := Some(vals[i]);
          keys := Delete(keys, i);
          vals := Delete(vals, i);
          return;
        }
        assert keys[..i + 1] == keys[..i] + [keys[i]];
        i := i + 1;
      }
      assert keys[..i] == keys;
      return None;
    }

    method Size() returns (n: nat)
      requires Valid()
      ensures n == |keys| == |vals|
    {
      return |keys|;
    }

    method GetKeys() returns (ks: seq<K>)
      ensures ks == keys
    {
      return keys;
    }

    method GetValues() returns (vs: seq<V>)
      ensures vs == vals
    {
      return vals;
    }
  }

  /**
   * A lookup after `add`: a key already present keeps answering with its old
   * value, because the new pair sits behind it; a new key answers with the
   * added value.
   */
  lemma LookupAfterAdd<K, V>(keys: seq<K>, vals: seq<V>, k: K, v: V, x: K)
    requires |keys| == |vals|
    ensures Lookup(keys + [k], vals + [v], x) ==
      if x in keys then Lookup(keys, vals, x) else if x == k then Some(v) else None
  {
    if x in keys {
      IndexOfAppend(keys, [k], x);
      assert (vals + [v])[IndexOf(keys, x)] == vals[IndexOf(keys, x)];
    } else if x == k {
      IndexOfUnique(keys + [k], x, |keys|);
    }
  }

  /**
   * A lookup after `remove(k)`: other keys are unaffected, and `k` itself now
   * answers with the value of its second occurrence, if there was one.
   */
  lemma LookupAfterRemove<K, V>(keys: seq<K>, vals: seq<V>, k: K, x: K)
    requires |keys| == |vals| && k in keys
    ensures var i := IndexOf(keys, k);
      Lookup(Delete(keys, i), Delete(vals, i), x) ==
        if x != k then Lookup(keys, vals, x) else Lookup(keys[i + 1..], vals[i + 1..], x)
  {
    if x != k {
      if x in keys && IndexOf(keys, x) < IndexOf(keys, k) {
        LookupBeforeRemoved(keys, vals, k, x);
      } else if x in keys {
        LookupAfterRemoved(keys, vals, k, x);
      } else {
        var i := IndexOf(keys, k);
        var ks := Delete(keys, i);
        assert x !in ks by {
          forall m | 0 <= m < |ks| ensures ks[m] != x {
            if m < i { assert ks[m] == keys[m]; } else { assert ks[m] == keys[m + 1]; }
          }
        }
      }
    } else {
      LookupRemovedAgain(keys, vals, k);
    }
  }

  /** A key found before the removed one keeps its position and value. */
  lemma LookupBeforeRemoved<K, V>(keys: seq<K>, vals: seq<V>, k: K, x: K)
    requires |keys| == |vals| && k in keys && x in keys && IndexOf(keys, x) < IndexOf(keys, k)
    ensures var i := IndexOf(keys, k);
      Lookup(Delete(keys, i), Delete(vals, i), x) == Lookup(keys, vals, x)
  {
    var i, j := IndexOf(keys, k), IndexOf(keys, x);
    var ks := Delete(keys, i);
    assert keys[..j] == ks[..j];
    IndexOfUnique(ks, x, j);
  }

  /** A key first found after the removed one moves down by one position. */
  lemma LookupAfterRemoved<K, V>(keys: seq<K>, vals: seq<V>, k: K, x: K)
    requires |keys| == |vals| && k in keys && x in keys && x != k && IndexOf(keys, k) < IndexOf(keys, x)
    ensures var i := IndexOf(keys, k);
      Lookup(Delete(keys, i), Delete(vals, i), x) == Lookup(keys, vals, x)
  {
    var i, j := IndexOf(keys, k), IndexOf(keys, x);
    var ks, vs := Delete(keys, i), Delete(vals, i);
    assert ks[j - 1] == x && vs[j - 1] == vals[j];
    var front := ks[..j - 1];
    forall m | 0 <= m < |front| ensures front[m] != x {
      var m' := if m < i then m else m + 1;
      assert front[m] == keys[m'] == keys[..j][m'];
    }
    IndexOfUnique(ks, x, j - 1);
    assert Lookup(ks, vs, x) == Some(vs[j - 1]);
  }

  /** The removed key now answers as the rest of the table after its first occurrence would. */
  lemma LookupRemovedAgain<K, V>(keys: seq<K>, vals: seq<V>, k: K)
    requires |keys| == |vals| && k in keys
    ensures var i := IndexOf(keys, k);
      Lookup(Delete(keys, i), Delete(vals, i), k) == Lookup(keys[i + 1..], vals[i + 1..], k)
  {
    var i := IndexOf(keys, k);
    var ks, vs := Delete(keys, i), Delete(vals, i);
    assert ks == keys[..i] + keys[i + 1..];
    assert vs == vals[..i] + vals[i + 1..];
    assert k !in keys[..i];
    if k in keys[i + 1..] {
      var j := IndexOf(keys[i + 1..], k);
      assert ks[i + j] == k;
      assert ks[..i + j] == keys[..i] + keys[i + 1..][..j];
      IndexOfUnique(ks, k, i + j);
    } else {
      assert k !in ks;
    }
  }

  /** With distinct keys, a removed key is gone from the table. */
  lemma RemovedKeyIsGone<K, V>(keys: seq<K>, vals: seq<V>, k: K)
    requires |keys| == |vals| && k in keys && Distinct(keys)
    ensures var i := IndexOf(keys, k);
      Lookup(Delete(keys, i), Delete(vals, i), k).None?
  {
    var i := IndexOf(keys, k);
    var rest := keys[i + 1..];
    assert k !in rest by {
      forall m | 0 <= m < |rest| ensures rest[m] != k {
        assert rest[m] == keys[i + 1 + m];
      }
    }
    LookupAfterRemove(keys, vals, k, k);
  }
}
