/**
 * Ordered lists whose elements carry a key (an address, or a whole key
 * string), searched front to back by key equality. These functions specify
 * the native client's `u_arraylist` scans: the first match wins, a removal
 * takes out that one element and keeps the others in order, and an add
 * appends only when no element has the key yet.
 */
module KeyedList {
  import opened BtTypes

  /** The first index at or after `from` whose element has key `k`. */
  function FindFrom<T, K(==)>(s: seq<T>, key: T -> K, k: K, from: nat): (r: Option<nat>)
    requires from <= |s|
    decreases |s| - from
    ensures r.Some? ==> from <= r.value < |s| && key(s[r.value]) == k
    ensures r.Some? ==> forall j :: from <= j < r.value ==> key(s[j]) != k
    ensures r.None? <==> forall j :: from <= j < |s| ==> key(s[j]) != k
  {
    if from == |s| then None
    else if key(s[from]) == k then Some(from)
    else FindFrom(s, key, k, from + 1)
  }

  /** The first index whose element has key `k`. */
  function Find<T, K(==)>(s: seq<T>, key: T -> K, k: K): Option<nat> {
    FindFrom(s, key, k, 0)
  }

  /** Some element of `s` has key `k`. */
  predicate Has<T, K(==)>(s: seq<T>, key: T -> K, k: K) {
    exists j :: 0 <= j < |s| && key(s[j]) == k
  }

  /** No two elements of `s` share a key. */
  predicate Unique<T, K(==)>(s: seq<T>, key: T -> K) {
    forall i, j :: 0 <= i < j < |s| ==> key(s[i]) != key(s[j])
  }

  /** `s` without the element at index `i`. */
  function RemoveAt<T>(s: seq<T>, i: nat): (r: seq<T>)
    requires i < |s|
    ensures |r| == |s| - 1
    ensures forall j :: 0 <= j < i ==> r[j] == s[j]
    ensures forall j :: i <= j < |r| ==> r[j] == s[j + 1]
  {
    s[..i] + s[i + 1..]
  }

  /** `s` without its first element keyed `k`, or `s` itself when there is none. */
  function RemoveFirst<T, K(==)>(s: seq<T>, key: T -> K, k: K): seq<T> {
    match Find(s, key, k)
    case None => s
    case Some(i) => RemoveAt(s, i)
  }

  /** `s` with `x` appended unless an element with the key of `x` is already there. */
  function AddIfAbsent<T, K(==)>(s: seq<T>, key: T -> K, x: T): seq<T> {
    if Has(s, key, key(x)) then s else s + [x]
  }

  /** A search finds something exactly when some element has the key. */
  lemma FindIffHas<T, K>(s: seq<T>, key: T -> K, k: K)
    ensures Find(s, key, k).Some? <==> Has(s, key, k)
  {
    if Find(s, key, k).None? {
      assert forall j :: 0 <= j < |s| ==> key(s[j]) != k;
    } else {
      var i := Find(s, key, k).value;
      assert key(s[i]) == k;
    }
  }

  /** In a list without duplicate keys, the element found is the only one with the key. */
  lemma FindInUnique<T, K>(s: seq<T>, key: T -> K, k: K, i: nat)
    requires Unique(s, key)
    requires i < |s| && key(s[i]) == k
    ensures Find(s, key, k) == Some(i)
  {
    var r := Find(s, key, k);
    assert r.Some? by {
      assert key(s[i]) == k;
    }
    assert r.value <= i;
    assert key(s[r.value]) == key(s[i]);
  }

  /**
   * Removing the first element keyed `k` from a list without duplicate keys
   * leaves no element keyed `k`, keeps every other key present, and keeps
   * the list free of duplicates.
   */
  lemma RemoveFirstUnique<T, K>(s: seq<T>, key: T -> K, k: K)
    requires Unique(s, key)
    ensures Unique(RemoveFirst(s, key, k), key)
    ensures !Has(RemoveFirst(s, key, k), key, k)
    ensures forall k' :: k' != k ==> (Has(RemoveFirst(s, key, k), key, k') <==> Has(s, key, k'))
  {
    var r := RemoveFirst(s, key, k);
    match Find(s, key, k)
    case None =>
      FindIffHas(s, key, k);
    case Some(i) =>
      assert r == RemoveAt(s, i);
      forall a, b | 0 <= a < b < |r| ensures key(r[a]) != key(r[b]) {
        var a' := if a < i then a else a + 1;
        var b' := if b < i then b else b + 1;
        assert r[a] == s[a'] && r[b] == s[b'];
      }
      forall j | 0 <= j < |r| ensures key(r[j]) != k {
        var j' := if j < i then j else j + 1;
        assert r[j] == s[j'];
        assert key(s[j']) != key(s[i]);
      }
      forall k' | k' != k && Has(s, key, k') ensures Has(r, key, k') {
        var j :| 0 <= j < |s| && key(s[j]) == k';
        if j < i {
          assert r[j] == s[j];
        } else {
          assert j != i;
          assert r[j - 1] == s[j];
        }
      }
      forall k' | Has(r, key, k') ensures Has(s, key, k') {
        var j :| 0 <= j < |r| && key(r[j]) == k';
        var j' := if j < i then j else j + 1;
        assert r[j] == s[j'];
      }
  }

  /** An add keeps the list free of duplicates, and afterwards the key is present. */
  lemma AddIfAbsentUnique<T, K>(s: seq<T>, key: T -> K, x: T)
    requires Unique(s, key)
    ensures Unique(AddIfAbsent(s, key, x), key)
    ensures Has(AddIfAbsent(s, key, x), key, key(x))
  {
    if !Has(s, key, key(x)) {
      var r := s + [x];
      assert r[|s|] == x;
      forall a, b | 0 <= a < b < |r| ensures key(r[a]) != key(r[b]) {
        if b == |s| {
          assert r[a] == s[a];
        } else {
          assert r[a] == s[a] && r[b] == s[b];
        }
      }
    }
  }

  /** Adding the same element twice is the same as adding it once. */
  lemma AddIfAbsentIdempotent<T, K>(s: seq<T>, key: T -> K, x: T)
    ensures AddIfAbsent(AddIfAbsent(s, key, x), key, x) == AddIfAbsent(s, key, x)
  {
    var r := AddIfAbsent(s, key, x);
    if !Has(s, key, key(x)) {
      assert r[|s|] == x;
    }
  }
}
