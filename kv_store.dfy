/**
  The key/value store behind the etcd registry, as the libkv `store.Store`
  interface presents it: Get, List and Put over a map from keys to values.
 */
module KvStore {
  import opened Wrappers
  import opened Strings
  import opened Sorting

  /** store.KVPair: a key and the value stored at it. */
  datatype KVPair = KVPair(key: Bytes, value: Bytes)

  /** KeyNotFound is libkv's store.ErrKeyNotFound; Unavailable stands for every other backend error. */
  datatype StoreError = KeyNotFound | Unavailable

  /**
    The store: its entries, the keys (and list prefixes) at which reads fail
    and the keys at which writes fail with an error of the backend's own (a
    lost connection, a timeout, a refused permission). Which requests fail is
    the backend's business; the model only fixes that they fail.
   */
  datatype Store = Store(entries: map<Bytes, Bytes>, unreadable: set<Bytes>, unwritable: set<Bytes>)

  /** Store.Get: the pair stored at `key`. */
  function Get(s: Store, key: Bytes): (r: Result<KVPair, StoreError>)
    ensures r.Ok? <==> key !in s.unreadable && key in s.entries
    ensures r.Ok? ==> r.value == KVPair(key, s.entries[key])
    ensures r.Err? ==> r.error == if key in s.unreadable then Unavailable else KeyNotFound
  {
    if key in s.unreadable then Err(Unavailable)
    else if key !in s.entries then Err(KeyNotFound)
    else Ok(KVPair(key, s.entries[key]))
  }

  /** The keys of the store that start with `prefix`. */
  function KeysUnder(s: Store, prefix: Bytes): set<Bytes>
  {
    set k | k in s.entries && HasPrefix(k, prefix)
  }

  /**
    Store.List: every pair whose key starts with `prefix` (etcd keys have no
    directories, so this is every key below it at any depth), in etcd's
    order of keys; an empty answer is store.ErrKeyNotFound. ListSound,
    ListComplete and ListDistinct state what the answer holds.
   */
  function List(s: Store, prefix: Bytes): (r: Result<seq<KVPair>, StoreError>)
    ensures r.Ok? <==> prefix !in s.unreadable && KeysUnder(s, prefix) != {}
    ensures r.Err? ==> r.error == if prefix in s.unreadable then Unavailable else KeyNotFound
  {
    if prefix in s.unreadable then Err(Unavailable)
    else
      var keys := SortedKeys(KeysUnder(s, prefix));
      if keys == [] then Err(KeyNotFound)
      else
        assert forall i :: 0 <= i < |keys| ==> keys[i] in KeysUnder(s, prefix);
        Ok(seq(|keys|, i requires 0 <= i < |keys| => KVPair(keys[i], s.entries[keys[i]])))
  }

  /** Every listed pair is a stored pair whose key starts with the prefix. */
  lemma ListSound(s: Store, prefix: Bytes)
    requires List(s, prefix).Ok?
    ensures forall i :: 0 <= i < |List(s, prefix).value| ==>
      && HasPrefix(List(s, prefix).value[i].key, prefix)
      && List(s, prefix).value[i].key in s.entries
      && List(s, prefix).value[i].value == s.entries[List(s, prefix).value[i].key]
  {
    var keys := SortedKeys(KeysUnder(s, prefix));
    assert forall i :: 0 <= i < |keys| ==> keys[i] in KeysUnder(s, prefix);
  }

  /** Every stored key that starts with the prefix is listed. */
  lemma ListComplete(s: Store, prefix: Bytes, k: Bytes)
    requires List(s, prefix).Ok? && k in s.entries && HasPrefix(k, prefix)
    ensures exists i :: 0 <= i < |List(s, prefix).value| && List(s, prefix).value[i].key == k
  {
    var keys := SortedKeys(KeysUnder(s, prefix));
    assert k in KeysUnder(s, prefix);
    assert List(s, prefix).value[IndexIn(keys, k)].key == k;
  }

  /** No key is listed twice. */
  lemma ListDistinct(s: Store, prefix: Bytes)
    requires List(s, prefix).Ok?
    ensures forall i, j :: 0 <= i < j < |List(s, prefix).value| ==>
      List(s, prefix).value[i].key != List(s, prefix).value[j].key
  {
    SortedDistinct(SortedKeys(KeysUnder(s, prefix)));
  }

  /** The position of `k` in `ks`. */
  function IndexIn(ks: seq<Bytes>, k: Bytes): (i: int)
    requires k in ks
    ensures 0 <= i < |ks| && ks[i] == k
  {
    if ks[0] == k then 0 else 1 + IndexIn(ks[1..], k)
  }

  /** Store.Put: `value` is stored at `key`, replacing what was there. */
  function Put(s: Store, key: Bytes, value: Bytes): (r: Result<Store, StoreError>)
    ensures r.Ok? <==> key !in s.unwritable
    ensures r.Ok? ==> r.value == s.(entries := s.entries[key := value])
    ensures r.Err? ==> r.error == Unavailable
  {
    if key in s.unwritable then Err(Unavailable) else Ok(s.(entries := s.entries[key := value]))
  }
}
