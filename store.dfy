/**
 * The keyed snapshot store behind every page: an array of entities, located by key with
 * `findIndex`, and patched by the push channel's "updated" events. An update replaces
 * the first entry with the same key wholesale and keeps its position; an update whose
 * key is not in the array is dropped (nothing is inserted).
 */
module Store {

  /** `s.findIndex(x => key(x) === k)`: the first position holding key `k`, or -1. */
  function IndexOf<T, K(==)>(s: seq<T>, key: T -> K, k: K): (i: int)
    ensures -1 <= i < |s|
    ensures i == -1 <==> forall j :: 0 <= j < |s| ==> key(s[j]) != k
    ensures 0 <= i ==> key(s[i]) == k && forall j :: 0 <= j < i ==> key(s[j]) != k
    decreases |s|
  {
    if |s| == 0 then -1
    else if key(s[0]) == k then 0
    else
      var i := IndexOf(s[1..], key, k);
      if i == -1 then -1 else i + 1
  }

  /** `findIndex` as the pages run it: a left-to-right scan that stops at the first match. */
  method FindIndex<T, K(==)>(s: seq<T>, key: T -> K, k: K) returns (i: int)
    ensures i == IndexOf(s, key, k)
  {
    i := 0;
    while i < |s|
      invariant 0 <= i <= |s|
      invariant forall j :: 0 <= j < i ==> key(s[j]) != k
    {
      if key(s[i]) == k {
        return;
      }
      i := i + 1;
    }
    i := -1;
  }

  /** Two sequences with the same keys, position by position. */
  ghost predicate SameKeys<T, K>(s: seq<T>, t: seq<T>, key: T -> K) {
    |s| == |t| && forall j :: 0 <= j < |s| ==> key(s[j]) == key(t[j])
  }

  /** The result of applying an "updated" event carrying `u` to the snapshot `s`. */
  function Updated<T, K(==)>(s: seq<T>, key: T -> K, u: T): (r: seq<T>)
    ensures SameKeys(r, s, key)
    ensures (forall j :: 0 <= j < |s| ==> key(s[j]) != key(u)) ==> r == s
    ensures forall j :: 0 <= j < |s| ==>
              r[j] == if j == IndexOf(s, key, key(u)) then u else s[j]
  {
    var i := IndexOf(s, key, key(u));
    if i == -1 then s else s[i := u]
  }

  /** Where an entry sits depends only on the keys. */
  lemma IndexOfSameKeys<T, K>(s: seq<T>, t: seq<T>, key: T -> K, k: K)
    requires SameKeys(s, t, key)
    ensures IndexOf(s, key, k) == IndexOf(t, key, k)
  {
  }

  /** Delivering the same update twice leaves the store as delivering it once. */
  lemma UpdatedIdempotent<T, K>(s: seq<T>, key: T -> K, u: T)
    ensures Updated(Updated(s, key, u), key, u) == Updated(s, key, u)
  {
    IndexOfSameKeys(Updated(s, key, u), s, key, key(u));
  }

  /** Of two updates for the same key, the later one wins: no field of the earlier survives. */
  lemma UpdatedLastWriteWins<T, K>(s: seq<T>, key: T -> K, u1: T, u2: T)
    requires key(u1) == key(u2)
    ensures Updated(Updated(s, key, u1), key, u2) == Updated(s, key, u2)
  {
    IndexOfSameKeys(Updated(s, key, u1), s, key, key(u2));
  }

  /** Updates for different keys touch different slots, so their order does not matter. */
  lemma UpdatedCommute<T, K>(s: seq<T>, key: T -> K, u1: T, u2: T)
    requires key(u1) != key(u2)
    ensures Updated(Updated(s, key, u1), key, u2) == Updated(Updated(s, key, u2), key, u1)
  {
    IndexOfSameKeys(Updated(s, key, u1), s, key, key(u2));
    IndexOfSameKeys(Updated(s, key, u2), s, key, key(u1));
  }

  /** After an update for a key the store holds, the entry found under that key is the update. */
  lemma UpdatedThenFound<T, K>(s: seq<T>, key: T -> K, u: T)
    requires IndexOf(s, key, key(u)) != -1
    ensures var r := Updated(s, key, u); IndexOf(r, key, key(u)) == IndexOf(s, key, key(u))
    ensures Updated(s, key, u)[IndexOf(s, key, key(u))] == u
  {
    IndexOfSameKeys(Updated(s, key, u), s, key, key(u));
  }
}
