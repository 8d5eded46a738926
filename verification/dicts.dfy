/** Insertion-ordered dictionaries, as sequences of entries. */
module Dicts {
  datatype Entry<K, V> = Entry(key: K, value: V)

  type Dict<K, V> = seq<Entry<K, V>>

  /** Every key has one entry. */
  ghost predicate UniqueKeys<K, V>(d: Dict<K, V>) {
    forall i, j :: 0 <= i < j < |d| ==> d[i].key != d[j].key
  }

  predicate Has<K(==), V>(d: Dict<K, V>, key: K) {
    exists i :: 0 <= i < |d| && d[i].key == key
  }

  /** Where a key is: the last entry carrying it, the one a dict comprehension keeps. */
  function Find<K(==), V>(d: Dict<K, V>, key: K): (at: nat)
    requires Has(d, key)
    ensures at < |d| && d[at].key == key
    ensures forall i :: at < i < |d| ==> d[i].key != key
    decreases |d|
  {
    if d[|d| - 1].key == key then |d| - 1 else
      assert forall i :: 0 <= i < |d| && d[i].key == key ==> d[..|d| - 1][i].key == key;
      Find(d[..|d| - 1], key)
  }

  function Get<K(==), V>(d: Dict<K, V>, key: K): V
    requires Has(d, key)
  {
    d[Find(d, key)].value
  }

  /** `d[key] = value`: in place when the key is there, at the end when it is not. */
  function Put<K(==), V>(d: Dict<K, V>, key: K, value: V): Dict<K, V> {
    if Has(d, key) then d[Find(d, key) := Entry(key, value)] else d + [Entry(key, value)]
  }

  /** The keys in insertion order. */
  function Keys<K, V>(d: Dict<K, V>): seq<K> {
    seq(|d|, i requires 0 <= i < |d| => d[i].key)
  }

  lemma PutKeepsUnique<K, V>(d: Dict<K, V>, key: K, value: V)
    requires UniqueKeys(d)
    ensures UniqueKeys(Put(d, key, value))
  {
  }

  lemma GetAt<K, V>(d: Dict<K, V>, i: nat)
    requires UniqueKeys(d) && i < |d|
    ensures Has(d, d[i].key) && Find(d, d[i].key) == i && Get(d, d[i].key) == d[i].value
  {
  }

  lemma GetPut<K, V>(d: Dict<K, V>, key: K, value: V, other: K)
    ensures Has(Put(d, key, value), other) <==> other == key || Has(d, other)
    ensures Has(Put(d, key, value), key) && Get(Put(d, key, value), key) == value
    ensures other != key && Has(d, other) ==> Get(Put(d, key, value), other) == Get(d, other)
  {
    var e := Put(d, key, value);
    if Has(d, key) {
      assert e[Find(d, key)].key == key;
      assert forall i :: 0 <= i < |d| ==> e[i].key == d[i].key;
    } else {
      assert e[|d|].key == key;
      assert forall i :: 0 <= i < |d| ==> e[i] == d[i];
    }
  }
}
