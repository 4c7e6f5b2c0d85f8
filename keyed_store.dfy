/**
 * An object store with an in-line key (keyPath 'id'): its records as a
 * sequence held in ascending key order, which is the order in which the
 * store returns them. The operations are the store primitives the ledger
 * uses: get by key, put and delete.
 */
module KeyedStore {
  import opened Wrappers

  /** Keys strictly ascend along the sequence, so no two records share a key. */
  ghost predicate Ordered<T>(s: seq<T>, key: T -> int)
  {
    forall i, j :: 0 <= i < j < |s| ==> key(s[i]) < key(s[j])
  }

  /** Every key of the store is below `bound` (the next key the generator gives out). */
  ghost predicate KeysBelow<T>(s: seq<T>, key: T -> int, bound: int)
  {
    forall i :: 0 <= i < |s| ==> key(s[i]) < bound
  }

  /** store.get(k): the position of the record with key `k`, if there is one. */
  function IndexOfKey<T>(s: seq<T>, key: T -> int, k: int): (r: Option<nat>)
    ensures r.Some? ==> r.value < |s| && key(s[r.value]) == k
    ensures r.None? ==> forall i :: 0 <= i < |s| ==> key(s[i]) != k
    ensures r.Some? && Ordered(s, key) ==> forall i :: 0 <= i < |s| && key(s[i]) == k ==> i == r.value
  {
    if s == [] then None
    else if key(s[0]) == k then Some(0)
    else match IndexOfKey(s[1..], key, k)
      case None => None
      case Some(i) => Some(i + 1)
  }

  /** store.delete(k): every record but the one with key `k`, in the same order. */
  function RemoveKey<T(!new)>(s: seq<T>, key: T -> int, k: int): (r: seq<T>)
    ensures forall x :: x in r <==> x in s && key(x) != k
    ensures |r| <= |s|
    ensures Ordered(s, key) ==> Ordered(r, key)
  {
    if s == [] then []
    else if key(s[0]) == k then RemoveKey(s[1..], key, k)
    else [s[0]] + RemoveKey(s[1..], key, k)
  }

  /**
   * store.put(x): `x` replaces the record with the same key, or is inserted
   * at its place in key order when there is none.
   */
  function Put<T>(s: seq<T>, key: T -> int, x: T): (r: seq<T>)
    requires Ordered(s, key)
    ensures Ordered(r, key)
    ensures |r| > 0 && (key(r[0]) == key(x) || (|s| > 0 && key(r[0]) == key(s[0])))
  {
    if s == [] then [x]
    else if key(x) < key(s[0]) then [x] + s
    else if key(x) == key(s[0]) then [x] + s[1..]
    else [s[0]] + Put(s[1..], key, x)
  }

  /** What put(x) leaves in the store: `x`, and every other record whose key differs from x's. */
  lemma {:induction false} PutContents<T(!new)>(s: seq<T>, key: T -> int, x: T)
    requires Ordered(s, key)
    ensures forall y :: y in Put(s, key, x) <==> y == x || (y in s && key(y) != key(x))
  {
    if s != [] && key(x) > key(s[0]) {
      PutContents(s[1..], key, x);
      assert forall y :: y in s <==> y == s[0] || y in s[1..];
    } else if s != [] && key(x) == key(s[0]) {
      assert forall y :: y in s[1..] ==> key(y) != key(x) by {
        forall y | y in s[1..] ensures key(y) != key(x) {
          var i :| 0 <= i < |s[1..]| && s[1..][i] == y;
          assert s[1..][i] == s[i + 1];
        }
      }
      assert forall y :: y in s <==> y == s[0] || y in s[1..];
    }
  }

  /** put(x) for a key the store already holds replaces that record where it stands. */
  lemma {:induction false} PutExistingKey<T>(s: seq<T>, key: T -> int, k: nat, x: T)
    requires Ordered(s, key)
    requires k < |s| && key(x) == key(s[k])
    ensures Put(s, key, x) == s[k := x]
  {
    if k > 0 {
      assert key(s[0]) < key(s[k]);
      PutExistingKey(s[1..], key, k - 1, x);
      assert s[1..][k - 1 := x] == s[k := x][1..];
    }
  }

  /**
   * add(x) under a freshly generated key: every key of the store is below
   * the new one, so the record goes after all others and the store stays
   * ordered, with its keys below the bumped generator.
   */
  lemma AppendFreshKey<T>(s: seq<T>, key: T -> int, x: T)
    requires Ordered(s, key) && KeysBelow(s, key, key(x))
    ensures Ordered(s + [x], key) && KeysBelow(s + [x], key, key(x) + 1)
  {
    assert forall i :: 0 <= i < |s| ==> (s + [x])[i] == s[i];
  }

  /** get and delete of the most recently added key find and remove exactly that record. */
  lemma {:induction false} LookupAppendedKey<T(!new)>(s: seq<T>, key: T -> int, x: T)
    requires KeysBelow(s, key, key(x))
    ensures IndexOfKey(s + [x], key, key(x)) == Some(|s|)
    ensures RemoveKey(s + [x], key, key(x)) == s
  {
    if s != [] {
      assert (s + [x])[1..] == s[1..] + [x];
      LookupAppendedKey(s[1..], key, x);
      assert [s[0]] + s[1..] == s;
    } else {
      assert [x][1..] == [];
    }
  }

  /**
   * Replacing a record by one with the same key (what put does for a key
   * the store holds, by PutExistingKey) keeps the store in key order and
   * every key below the same bound.
   */
  lemma ReplaceKeepsKeys<T>(s: seq<T>, key: T -> int, k: nat, x: T, bound: int)
    requires Ordered(s, key) && KeysBelow(s, key, bound)
    requires k < |s| && key(x) == key(s[k])
    ensures Ordered(s[k := x], key) && KeysBelow(s[k := x], key, bound)
  {
    assert forall i :: 0 <= i < |s| ==> key(s[k := x][i]) == key(s[i]);
  }
}
