/**
  The etcd registry adapter: how the service instances stored under a base
  path are enumerated, and how one instance's stored value is edited.

  An instance is stored at the key `<base><name>/<address>`, and its value
  is a URL query string such as `state=inactive&group=blue`. The base path
  is the configured ServiceBaseURL, which LoadConfig has made end in `/`.
 */
module EtcdService {
  import opened Wrappers
  import opened Strings
  import Base64
  import UrlQuery
  import opened KvStore
  import opened Registry

  /** `@`, between name and address in the text an ID encodes. */
  const At: Byte := 64
  /** `.`, which path.Join treats as a path element of its own. */
  const Dot: Byte := 46
  /** "state" */
  const StateKey: Bytes := [115, 116, 97, 116, 101]
  /** "group" */
  const GroupKey: Bytes := [103, 114, 111, 117, 112]
  /** "active" */
  const Active: Bytes := [97, 99, 116, 105, 118, 101]
  /** "inactive" */
  const Inactive: Bytes := [105, 110, 97, 99, 116, 105, 118, 101]
  /** "n/a" */
  const NotAvailable: Bytes := [110, 47, 97]

  // ---------------------------------------------------------------------
  // Splitting an instance key
  // ---------------------------------------------------------------------

  /** The service name of an instance key: what precedes its last `/`, less the base path. */
  function ServiceName(base: Bytes, key: Bytes): (name: Bytes)
    requires Slash in key
    ensures var dir := key[..LastIndex(key, Slash)];
      if HasPrefix(dir, base) then dir == base + name else name == dir
  {
    TrimPrefix(key[..LastIndex(key, Slash)], base)
  }

  /** The address of an instance key: the last of its `/`-separated fields, or "" when it has one field. */
  function ServiceAddress(key: Bytes): (address: Bytes)
    ensures Slash !in address
    ensures Slash in key ==> address == key[LastIndex(key, Slash) + 1..]
    ensures Slash !in key ==> address == []
  {
    var fields := Split(key, Slash);
    SplitCount(key, Slash);
    if |fields| > 1 then
      SplitLast(key, Slash);
      fields[|fields| - 1]
    else []
  }

  /**
    Both parts of an instance key come from its last `/`: the key is the
    name's directory (the base path and the name, or only the name when the
    directory does not start with the base path), `/`, and the address.
   */
  lemma KeySplit(base: Bytes, key: Bytes)
    requires Slash in key
    ensures var dir := key[..LastIndex(key, Slash)];
      key == (if HasPrefix(dir, base) then base + ServiceName(base, key) else ServiceName(base, key))
        + [Slash] + ServiceAddress(key)
  {
    var i := LastIndex(key, Slash);
    assert key == key[..i] + [Slash] + key[i + 1..];
  }

  // ---------------------------------------------------------------------
  // IDs and instance keys
  // ---------------------------------------------------------------------

  /** The ID of an instance: base64 (standard alphabet, padded) of `name@address`. */
  function ServiceId(name: Bytes, address: Bytes): Bytes
  {
    Base64.Encode(name + [At] + address)
  }

  /** When names hold no `@`, different instances have different IDs. */
  lemma ServiceIdInjective(n1: Bytes, a1: Bytes, n2: Bytes, a2: Bytes)
    requires At !in n1 && At !in n2
    ensures ServiceId(n1, a1) == ServiceId(n2, a2) <==> n1 == n2 && a1 == a2
  {
    if ServiceId(n1, a1) == ServiceId(n2, a2) {
      Base64.EncodeInjective(n1 + [At] + a1, n2 + [At] + a2);
      CutAt(n1, At, a1);
      CutAt(n2, At, a2);
    }
  }

  /** Without that condition IDs collide: `a@b` at `c` and `a` at `b@c` share one. */
  lemma ServiceIdCollision()
    ensures var a, b, c := [97], [98], [99];
      ServiceId(a + [At] + b, c) == ServiceId(a, b + [At] + c) && a + [At] + b != a
  {
    assert ([97] + [At] + [98]) + [At] + [99] == [97] + [At] + ([98] + [At] + [99]);
  }

  /** A path element that path.Join keeps as it is. */
  predicate Segment(x: Bytes)
  {
    x != [] && Slash !in x && x != [Dot] && x != [Dot, Dot]
  }

  /**
    A base path that path.Clean leaves as it is, followed by `/`: its
    elements are segments, except that an empty first one makes it absolute.
   */
  predicate CleanBase(base: Bytes)
  {
    HasSuffix(base, [Slash]) &&
    var elements := Split(base[..|base| - 1], Slash);
    forall k :: 0 <= k < |elements| ==> Segment(elements[k]) || (k == 0 && elements[k] == [])
  }

  /** path.Join(base, name, address), for the clean inputs on which it only concatenates. */
  function InstanceKey(base: Bytes, name: Bytes, address: Bytes): (key: Bytes)
    requires CleanBase(base) && Segment(name) && Segment(address)
    ensures HasPrefix(key, base) && Slash in key
  {
    var key := base + name + [Slash] + address;
    assert key[..|base|] == base;
    assert key[|base| + |name|] == Slash;
    key
  }

  /** Splitting the key of an instance gives back its name and its address. */
  lemma KeyRoundTrip(base: Bytes, name: Bytes, address: Bytes)
    requires CleanBase(base) && Segment(name) && Segment(address)
    ensures ServiceName(base, InstanceKey(base, name, address)) == name
    ensures ServiceAddress(InstanceKey(base, name, address)) == address
  {
    var key := InstanceKey(base, name, address);
    var i := |base| + |name|;
    assert key[i] == Slash;
    assert key[i + 1..] == address;
    LastIndexIs(key, Slash, i);
    assert key[..i] == base + name;
    assert (base + name)[..|base|] == base;
  }

  /** With names free of `@`, two instance keys have one ID only if they are one key. */
  lemma InstanceIdInjective(base: Bytes, n1: Bytes, a1: Bytes, n2: Bytes, a2: Bytes)
    requires CleanBase(base) && Segment(n1) && Segment(a1) && Segment(n2) && Segment(a2)
    requires At !in n1 && At !in n2
    ensures ServiceId(n1, a1) == ServiceId(n2, a2) <==> InstanceKey(base, n1, a1) == InstanceKey(base, n2, a2)
  {
    ServiceIdInjective(n1, a1, n2, a2);
    KeyRoundTrip(base, n1, a1);
    KeyRoundTrip(base, n2, a2);
  }

  // ---------------------------------------------------------------------
  // Enumeration
  // ---------------------------------------------------------------------

  /** The key lies under the base path, which ends in `/`. */
  predicate Within(base: Bytes, key: Bytes)
  {
    HasSuffix(base, [Slash]) && HasPrefix(key, base)
  }

  /**
    The record FetchServices builds from the stored pair `n`, or None when
    the value is not a query string and the pair is skipped.
   */
  function Record(base: Bytes, n: KVPair): (r: Option<Service>)
    requires Within(base, n.key)
    ensures r.Some? <==> UrlQuery.ParseQuery(n.value).Some?
  {
    PrefixContains(n.key, base, Slash);
    match UrlQuery.ParseQuery(n.value)
    case None => None
    case Some(v) =>
      var name := ServiceName(base, n.key);
      var address := ServiceAddress(n.key);
      var state := if UrlQuery.Get(v, StateKey) == [] then Active else UrlQuery.Get(v, StateKey);
      Some(Service(ServiceId(name, address), name, address, n.value, state, UrlQuery.Get(v, GroupKey)))
  }

  /**
    The fields of a record: name and address from the key, the ID from them,
    the stored value verbatim, the first decoded `state` value or "active"
    when there is none or it is empty, and the first `group` value or "".
   */
  lemma RecordFields(base: Bytes, n: KVPair)
    requires Within(base, n.key) && UrlQuery.ParseQuery(n.value).Some?
    ensures Slash in n.key && UrlQuery.NoEmptyLists(UrlQuery.ParseQuery(n.value).value)
    ensures var v, svc := UrlQuery.ParseQuery(n.value).value, Record(base, n).value;
      && svc.name == ServiceName(base, n.key)
      && svc.address == ServiceAddress(n.key)
      && svc.id == ServiceId(svc.name, svc.address)
      && svc.metadata == n.value
      && (StateKey !in v || v[StateKey][0] == [] ==> svc.state == Active)
      && (StateKey in v && v[StateKey][0] != [] ==> svc.state == v[StateKey][0])
      && svc.group == (if GroupKey in v then v[GroupKey][0] else [])
  {
    PrefixContains(n.key, base, Slash);
    UrlQuery.ParsedNoEmptyLists(n.value);
  }

  /**
    What visiting the pair `n` yields: its record, when its key lies under the
    base path. Every key FetchServices visits does (FlattenUnder); for any
    other key the Go code would panic, and no record is counted for it here.
   */
  function Visit(base: Bytes, n: KVPair): Option<Service>
  {
    if Within(base, n.key) then Record(base, n) else None
  }

  /** The results of visiting the pairs `ns`, one per pair, in order. */
  function Records(base: Bytes, ns: seq<KVPair>): (rs: seq<Option<Service>>)
    ensures |rs| == |ns|
    decreases |ns|
  {
    if ns == [] then [] else [Visit(base, ns[0])] + Records(base, ns[1..])
  }

  /** The `i`th result is the visit of the `i`th pair. */
  lemma {:induction false} RecordsAt(base: Bytes, ns: seq<KVPair>, i: nat)
    requires i < |ns|
    ensures Records(base, ns)[i] == Visit(base, ns[i])
    decreases |ns|
  {
    if i > 0 {
      RecordsAt(base, ns[1..], i - 1);
    }
  }

  /** `acc` with the record `r`, if any, filed under its ID. */
  function Insert(acc: map<Bytes, Service>, r: Option<Service>): map<Bytes, Service>
  {
    match r
    case None => acc
    case Some(svc) => acc[svc.id := svc]
  }

  /** `acc` with the records `rs` filed in order, each under its ID: a later record replaces an earlier one. */
  function Collect(acc: map<Bytes, Service>, rs: seq<Option<Service>>): map<Bytes, Service>
    decreases |rs|
  {
    if rs == [] then acc else Collect(Insert(acc, rs[0]), rs[1..])
  }

  /** The pairs one inner listing yields: none when the listing fails. */
  function SubList(s: Store, key: Bytes): (r: seq<KVPair>)
    ensures forall i :: 0 <= i < |r| ==>
      HasPrefix(r[i].key, key) && r[i].key in s.entries && r[i].value == s.entries[r[i].key]
  {
    match List(s, key)
    case Ok(ns) => ListSound(s, key); ns
    case Err(_) => []
  }

  /** The pairs the inner loop visits for the outer pairs `outer`, in order. */
  function Flatten(s: Store, outer: seq<KVPair>): seq<KVPair>
  {
    if outer == [] then [] else SubList(s, outer[0].key) + Flatten(s, outer[1..])
  }

  /** The records FetchServices finds, by ID: none when the base path cannot be listed. */
  function Registered(s: Store, base: Bytes): map<Bytes, Service>
  {
    match List(s, base)
    case Err(_) => map[]
    case Ok(kvs) => Collect(map[], Records(base, Flatten(s, kvs)))
  }

  /** Each record is filed under its own ID. */
  predicate ById(m: map<Bytes, Service>)
  {
    forall id :: id in m ==> m[id].id == id
  }

  /** Records, and the outer loop's steps through them. */
  lemma RecordsStep(base: Bytes, nodes: seq<KVPair>, j: nat, tail: seq<KVPair>)
    requires j < |nodes|
    ensures Records(base, nodes[j..] + tail) == [Visit(base, nodes[j])] + Records(base, nodes[j + 1..] + tail)
  {
    var rest := nodes[j..] + tail;
    assert rest[0] == nodes[j];
    assert rest[1..] == nodes[j + 1..] + tail;
  }

  lemma FlattenStep(s: Store, kvs: seq<KVPair>, i: nat)
    requires i < |kvs|
    ensures Flatten(s, kvs[i..]) == SubList(s, kvs[i].key) + Flatten(s, kvs[i + 1..])
  {
    assert kvs[i..][0] == kvs[i];
    assert kvs[i..][1..] == kvs[i + 1..];
  }

  /** The outer loop's step: the pairs still to visit are the next listing's, then the rest. */
  lemma EnterService(s: Store, base: Bytes, kvs: seq<KVPair>, i: nat, found: map<Bytes, Service>, target: map<Bytes, Service>)
    requires i < |kvs|
    requires Collect(found, Records(base, Flatten(s, kvs[i..]))) == target
    ensures Collect(found, Records(base, SubList(s, kvs[i].key) + Flatten(s, kvs[i + 1..]))) == target
  {
    FlattenStep(s, kvs, i);
  }

  /** The inner loop's step: visiting `nodes[j]` files its record, if any, and leaves the rest to visit. */
  lemma VisitInstance(base: Bytes, nodes: seq<KVPair>, j: nat, tail: seq<KVPair>, found: map<Bytes, Service>, target: map<Bytes, Service>)
    requires j < |nodes|
    requires Collect(found, Records(base, nodes[j..] + tail)) == target
    ensures Collect(Insert(found, Visit(base, nodes[j])), Records(base, nodes[j + 1..] + tail)) == target
  {
    RecordsStep(base, nodes, j, tail);
    CollectCons(found, Visit(base, nodes[j]), Records(base, nodes[j + 1..] + tail));
  }

  /** Collect files the first record, then the rest. */
  lemma CollectCons(acc: map<Bytes, Service>, r: Option<Service>, rs: seq<Option<Service>>)
    ensures Collect(acc, [r] + rs) == Collect(Insert(acc, r), rs)
  {
    assert ([r] + rs)[1..] == rs;
  }

  lemma {:induction false} CollectById(acc: map<Bytes, Service>, rs: seq<Option<Service>>)
    requires ById(acc)
    ensures ById(Collect(acc, rs))
    decreases |rs|
  {
    if rs != [] {
      CollectById(Insert(acc, rs[0]), rs[1..]);
    }
  }

  /** Every record Collect ends with was in `acc` already or is one of `rs`. */
  lemma {:induction false} CollectSound(acc: map<Bytes, Service>, rs: seq<Option<Service>>)
    ensures forall id :: id in Collect(acc, rs) ==>
      (id in acc && Collect(acc, rs)[id] == acc[id]) || Some(Collect(acc, rs)[id]) in rs
    decreases |rs|
  {
    if rs != [] {
      var acc' := Insert(acc, rs[0]);
      CollectSound(acc', rs[1..]);
      var r := Collect(acc, rs);
      forall id | id in r ensures (id in acc && r[id] == acc[id]) || Some(r[id]) in rs {
        if !(id in acc' && r[id] == acc'[id]) {
          assert Some(r[id]) in rs[1..];
        } else if !(id in acc && r[id] == acc[id]) {
          assert rs[0] == Some(r[id]);
        }
      }
    }
  }

  /** Collect keeps every ID of `acc` and files every record of `rs`. */
  lemma {:induction false} CollectComplete(acc: map<Bytes, Service>, rs: seq<Option<Service>>)
    ensures acc.Keys <= Collect(acc, rs).Keys
    ensures forall i :: 0 <= i < |rs| && rs[i].Some? ==> rs[i].value.id in Collect(acc, rs)
    decreases |rs|
  {
    if rs != [] {
      CollectComplete(Insert(acc, rs[0]), rs[1..]);
      forall i | 0 <= i < |rs| && rs[i].Some? ensures rs[i].value.id in Collect(acc, rs) {
        if i > 0 { assert rs[i] == rs[1..][i - 1]; }
      }
    }
  }

  /** An ID that none of `rs` has keeps what `acc` holds for it. */
  lemma {:induction false} CollectUntouched(acc: map<Bytes, Service>, rs: seq<Option<Service>>, id: Bytes)
    requires id in acc
    requires forall j :: 0 <= j < |rs| && rs[j].Some? ==> rs[j].value.id != id
    ensures id in Collect(acc, rs) && Collect(acc, rs)[id] == acc[id]
    decreases |rs|
  {
    if rs != [] {
      forall j | 0 <= j < |rs[1..]| && rs[1..][j].Some? ensures rs[1..][j].value.id != id {
        assert rs[1..][j] == rs[j + 1];
      }
      CollectUntouched(Insert(acc, rs[0]), rs[1..], id);
    }
  }

  /** Later writes win: an ID holds the last record that has it. */
  lemma {:induction false} CollectLastWins(acc: map<Bytes, Service>, rs: seq<Option<Service>>, i: nat)
    requires i < |rs| && rs[i].Some?
    requires forall j :: i < j < |rs| && rs[j].Some? ==> rs[j].value.id != rs[i].value.id
    ensures rs[i].value.id in Collect(acc, rs) && Collect(acc, rs)[rs[i].value.id] == rs[i].value
    decreases |rs|
  {
    var svc := rs[i].value;
    forall j | i <= j < |rs[1..]| && rs[1..][j].Some? ensures rs[1..][j].value.id != svc.id {
      assert rs[1..][j] == rs[j + 1];
    }
    if i == 0 {
      CollectUntouched(Insert(acc, rs[0]), rs[1..], svc.id);
    } else {
      assert rs[1..][i - 1] == rs[i];
      CollectLastWins(Insert(acc, rs[0]), rs[1..], i - 1);
    }
  }

  /** Every pair the inner loop visits is an entry of the store. */
  lemma {:induction false} FlattenStored(s: Store, outer: seq<KVPair>)
    ensures forall i :: 0 <= i < |Flatten(s, outer)| ==>
      Flatten(s, outer)[i].key in s.entries && Flatten(s, outer)[i].value == s.entries[Flatten(s, outer)[i].key]
  {
    if outer != [] {
      FlattenStored(s, outer[1..]);
      var here, r := SubList(s, outer[0].key), Flatten(s, outer);
      assert r == here + Flatten(s, outer[1..]);
      forall i | 0 <= i < |r| ensures r[i].key in s.entries && r[i].value == s.entries[r[i].key] {
        if i < |here| {
          assert r[i] == here[i];
        } else {
          assert r[i] == Flatten(s, outer[1..])[i - |here|];
        }
      }
    }
  }

  /**
    Every pair the inner loop visits lies under the base path, given outer
    pairs that do: a key listed under a key under the base path is under it.
   */
  lemma {:induction false} FlattenUnder(s: Store, base: Bytes, outer: seq<KVPair>)
    requires HasSuffix(base, [Slash])
    requires forall i :: 0 <= i < |outer| ==> HasPrefix(outer[i].key, base)
    ensures forall i :: 0 <= i < |Flatten(s, outer)| ==> Within(base, Flatten(s, outer)[i].key)
  {
    if outer != [] {
      assert forall i :: 0 <= i < |outer[1..]| ==> outer[1..][i] == outer[i + 1];
      FlattenUnder(s, base, outer[1..]);
      var here, r := SubList(s, outer[0].key), Flatten(s, outer);
      assert r == here + Flatten(s, outer[1..]);
      forall i | 0 <= i < |r| ensures Within(base, r[i].key) {
        if i < |here| {
          assert r[i] == here[i];
          PrefixTransitive(here[i].key, outer[0].key, base);
        } else {
          assert r[i] == Flatten(s, outer[1..])[i - |here|];
        }
      }
    }
  }

  /** Every pair of an inner listing is visited. */
  lemma {:induction false} FlattenHas(s: Store, outer: seq<KVPair>, i: nat, p: KVPair)
    requires i < |outer| && p in SubList(s, outer[i].key)
    ensures p in Flatten(s, outer)
  {
    if i > 0 {
      assert outer[1..][i - 1] == outer[i];
      FlattenHas(s, outer[1..], i - 1, p);
    }
  }

  /** The stored pair at `k`. */
  function PairAt(s: Store, k: Bytes): (p: KVPair)
    requires k in s.entries
    ensures p.key == k && p.value == s.entries[k]
  {
    KVPair(k, s.entries[k])
  }

  /** Each found record is filed under its own ID. */
  lemma RegisteredById(s: Store, base: Bytes)
    ensures ById(Registered(s, base))
  {
    if List(s, base).Ok? {
      CollectById(map[], Records(base, Flatten(s, List(s, base).value)));
    }
  }

  /** Every found record is the record of a stored key under the base path. */
  lemma RegisteredSound(s: Store, base: Bytes)
    ensures forall id :: id in Registered(s, base) ==>
      exists k :: k in s.entries && Within(base, k) && Record(base, PairAt(s, k)) == Some(Registered(s, base)[id])
  {
    if List(s, base).Ok? {
      var ns := Flatten(s, List(s, base).value);
      FlattenStored(s, List(s, base).value);
      var rs := Records(base, ns);
      CollectSound(map[], rs);
      var r := Registered(s, base);
      forall id | id in r
        ensures exists k :: k in s.entries && Within(base, k) && Record(base, PairAt(s, k)) == Some(r[id])
      {
        var i :| 0 <= i < |rs| && rs[i] == Some(r[id]);
        RecordsAt(base, ns, i);
        var k := ns[i].key;
        assert k in s.entries && Within(base, k);
        assert PairAt(s, k) == ns[i];
      }
    }
  }

  /**
    A stored key under the base path whose value decodes is found, as long as
    the base path and the key itself can be listed: a failing listing of
    another key skips only what that listing held.
   */
  lemma RegisteredComplete(s: Store, base: Bytes, k: Bytes)
    requires k in s.entries && Within(base, k)
    requires base !in s.unreadable && k !in s.unreadable
    requires Record(base, PairAt(s, k)).Some?
    ensures Record(base, PairAt(s, k)).value.id in Registered(s, base)
  {
    assert k in KeysUnder(s, base);
    var kvs := List(s, base).value;
    ListComplete(s, base, k);
    var i :| 0 <= i < |kvs| && kvs[i].key == k;
    assert HasPrefix(k, k);
    assert k in KeysUnder(s, k);
    var nodes := List(s, k).value;
    ListComplete(s, k, k);
    ListSound(s, k);
    var j :| 0 <= j < |nodes| && nodes[j].key == k;
    assert nodes[j] == PairAt(s, k);
    FlattenHas(s, kvs, i, PairAt(s, k));
    var ns := Flatten(s, kvs);
    var m :| 0 <= m < |ns| && ns[m] == PairAt(s, k);
    var rs := Records(base, ns);
    RecordsAt(base, ns, m);
    CollectComplete(map[], rs);
  }

  /**
    When no other key under the base path yields a record with the same ID,
    the record found under that ID is exactly the key's own.
   */
  lemma RegisteredExact(s: Store, base: Bytes, k: Bytes)
    requires k in s.entries && Within(base, k)
    requires base !in s.unreadable && k !in s.unreadable
    requires Record(base, PairAt(s, k)).Some?
    requires forall k' :: k' in s.entries && Within(base, k') && Record(base, PairAt(s, k')).Some? ==>
      Record(base, PairAt(s, k')).value.id == Record(base, PairAt(s, k)).value.id ==> k' == k
    ensures var svc := Record(base, PairAt(s, k)).value;
      svc.id in Registered(s, base) && Registered(s, base)[svc.id] == svc
  {
    var svc := Record(base, PairAt(s, k)).value;
    RegisteredComplete(s, base, k);
    RegisteredSound(s, base);
    RegisteredById(s, base);
    var r := Registered(s, base);
    var k' :| k' in s.entries && Within(base, k') && Record(base, PairAt(s, k')) == Some(r[svc.id]);
  }

  /** toList: the values of `m`, each once, in an order the model leaves open. */
  method ToList(m: map<Bytes, Service>) returns (services: seq<Service>)
    ensures |services| == |m|
    ensures forall svc :: svc in services <==> svc in m.Values
    ensures ById(m) ==> forall i, j :: 0 <= i < j < |services| ==> services[i] != services[j]
  {
    services := [];
    var rest := m.Keys;
    ghost var ids: seq<Bytes> := [];
    while rest != {}
      invariant rest <= m.Keys
      invariant |ids| == |services| && |ids| + |rest| == |m.Keys|
      invariant forall i :: 0 <= i < |ids| ==> ids[i] in m && ids[i] !in rest && services[i] == m[ids[i]]
      invariant forall id :: id in m && id !in rest ==> id in ids
      invariant forall i, j :: 0 <= i < j < |ids| ==> ids[i] != ids[j]
      decreases rest
    {
      var id :| id in rest;
      services := services + [m[id]];
      ids := ids + [id];
      rest := rest - {id};
    }
    assert |m.Keys| == |m|;
    forall svc | svc in m.Values ensures svc in services {
      var id :| id in m && m[id] == svc;
      var i :| 0 <= i < |ids| && ids[i] == id;
      assert services[i] == svc;
    }
  }

  // ---------------------------------------------------------------------
  // Editing one instance
  // ---------------------------------------------------------------------

  /** Why an edit failed: the store's error, or a stored value that is not a query string. */
  datatype Failure = StoreFailed(cause: StoreError) | ValueNotQuery

  /** How an edit ended: it wrote, it returned an error, or it dereferenced a missing pair. */
  datatype Outcome = Done | Failed(failure: Failure) | Panicked

  /** The store after an edit, and how the edit ended. */
  datatype Edit = Edit(store: Store, outcome: Outcome)

  /**
    The decode, set-state, encode and put a state edit does once the pair is
    read: it writes only when the value decodes and the key takes writes.
   */
  function SetState(s: Store, pair: KVPair, state: Bytes): (e: Edit)
    ensures e.outcome == Done <==> UrlQuery.ParseQuery(pair.value).Some? && pair.key !in s.unwritable
    ensures e.outcome != Done ==> e.store == s
    ensures UrlQuery.ParseQuery(pair.value).None? ==> e.outcome == Failed(ValueNotQuery)
    ensures UrlQuery.ParseQuery(pair.value).Some? && pair.key in s.unwritable ==>
      e.outcome == Failed(StoreFailed(Unavailable))
  {
    match UrlQuery.ParseQuery(pair.value)
    case None => Edit(s, Failed(ValueNotQuery))
    case Some(v) =>
      match Put(s, pair.key, UrlQuery.Encode(UrlQuery.Set(v, StateKey, state)))
      case Ok(s') => Edit(s', Done)
      case Err(e) => Edit(s, Failed(StoreFailed(e)))
  }

  /** DeactivateService at `key`: a failed Get is returned as the error. */
  function Deactivated(s: Store, key: Bytes): Edit
  {
    match Get(s, key)
    case Err(e) => Edit(s, Failed(StoreFailed(e)))
    case Ok(pair) => SetState(s, pair, Inactive)
  }

  /** ActivateService at `key`: a failed Get is not checked, and reading its missing value panics. */
  function Activated(s: Store, key: Bytes): Edit
  {
    match Get(s, key)
    case Err(_) => Edit(s, Panicked)
    case Ok(pair) => SetState(s, pair, Active)
  }

  /** UpdateMetadata at `key`: `metadata` is put there as it is. */
  function UpdatedMetadata(s: Store, key: Bytes, metadata: Bytes): (e: Edit)
    ensures e.outcome == Done <==> key !in s.unwritable
    ensures e.outcome != Done ==> e.store == s && e.outcome == Failed(StoreFailed(Unavailable))
    ensures e.outcome == Done ==>
      && e.store.unreadable == s.unreadable && e.store.unwritable == s.unwritable
      && e.store.entries.Keys == s.entries.Keys + {key}
      && e.store.entries[key] == metadata
      && forall k :: k in s.entries && k != key ==> e.store.entries[k] == s.entries[k]
  {
    match Put(s, key, metadata)
    case Ok(s') => Edit(s', Done)
    case Err(e) => Edit(s, Failed(StoreFailed(e)))
  }

  /**
    The new store is the old one with only the value at `key` replaced, and
    that value decodes to `v` with `state` set to the single value `state`.
   */
  predicate StateWritten(s: Store, s': Store, key: Bytes, v: UrlQuery.Values, state: Bytes)
  {
    && s'.unreadable == s.unreadable && s'.unwritable == s.unwritable
    && s'.entries.Keys == s.entries.Keys + {key}
    && (forall k :: k in s.entries && k != key ==> s'.entries[k] == s.entries[k])
    && UrlQuery.ParseQuery(s'.entries[key]) == Some(v[StateKey := [state]])
  }

  /** What a state edit writes: the decoded value with `state` set, at the pair's key only. */
  lemma SetStateWrites(s: Store, pair: KVPair, state: Bytes)
    requires SetState(s, pair, state).outcome == Done
    ensures UrlQuery.ParseQuery(pair.value).Some?
    ensures StateWritten(s, SetState(s, pair, state).store, pair.key, UrlQuery.ParseQuery(pair.value).value, state)
  {
    var v := UrlQuery.ParseQuery(pair.value).value;
    UrlQuery.ParseEncodeSet(pair.value, StateKey, state);
    assert SetState(s, pair, state).store.entries[pair.key] == UrlQuery.Encode(UrlQuery.Set(v, StateKey, state));
  }

  /**
    DeactivateService writes only when the Get, the decode and the Put all
    succeed; then the value at the key decodes to what it did, with state
    "inactive". Otherwise nothing is written and the first error is returned.
   */
  lemma DeactivatedSpec(s: Store, key: Bytes)
    ensures var e := Deactivated(s, key);
      && (e.outcome == Done <==>
          key !in s.unreadable && key in s.entries && key !in s.unwritable &&
          UrlQuery.ParseQuery(s.entries[key]).Some?)
      && (e.outcome != Done ==> e.store == s)
      && e.outcome != Panicked
      && (key in s.unreadable ==> e.outcome == Failed(StoreFailed(Unavailable)))
      && (key !in s.unreadable && key !in s.entries ==> e.outcome == Failed(StoreFailed(KeyNotFound)))
      && (key !in s.unreadable && key in s.entries && UrlQuery.ParseQuery(s.entries[key]).None? ==>
          e.outcome == Failed(ValueNotQuery))
      && (e.outcome == Done ==>
          StateWritten(s, e.store, key, UrlQuery.ParseQuery(s.entries[key]).value, Inactive))
  {
    if Get(s, key).Ok? {
      if Deactivated(s, key).outcome == Done {
        SetStateWrites(s, Get(s, key).value, Inactive);
      }
    }
  }

  /**
    ActivateService is the same edit with state "active", except that when
    the Get fails it goes on to read the missing pair and panics.
   */
  lemma ActivatedSpec(s: Store, key: Bytes)
    ensures var e := Activated(s, key);
      && (e.outcome == Done <==>
          key !in s.unreadable && key in s.entries && key !in s.unwritable &&
          UrlQuery.ParseQuery(s.entries[key]).Some?)
      && (e.outcome != Done ==> e.store == s)
      && (e.outcome == Panicked <==> key in s.unreadable || key !in s.entries)
      && (key !in s.unreadable && key in s.entries && UrlQuery.ParseQuery(s.entries[key]).None? ==>
          e.outcome == Failed(ValueNotQuery))
      && (e.outcome == Done ==>
          StateWritten(s, e.store, key, UrlQuery.ParseQuery(s.entries[key]).value, Active))
  {
    if Get(s, key).Ok? {
      if Activated(s, key).outcome == Done {
        SetStateWrites(s, Get(s, key).value, Active);
      }
    }
  }

  /** On a key that is not stored, DeactivateService returns KeyNotFound while ActivateService panics. */
  lemma MissingKeyDiffers(s: Store, key: Bytes)
    requires key !in s.unreadable && key !in s.entries
    ensures Deactivated(s, key) == Edit(s, Failed(StoreFailed(KeyNotFound)))
    ensures Activated(s, key) == Edit(s, Panicked)
  {
  }

  /**
    For a found instance, a successful state edit changes only the record's
    state (to `state`) and its metadata (to the re-encoded value).
   */
  lemma StateEditRecord(base: Bytes, s: Store, s': Store, key: Bytes, state: Bytes)
    requires Within(base, key) && key in s.entries && UrlQuery.ParseQuery(s.entries[key]).Some?
    requires state != []
    requires StateWritten(s, s', key, UrlQuery.ParseQuery(s.entries[key]).value, state)
    ensures Record(base, PairAt(s', key)) ==
      Some(Record(base, PairAt(s, key)).value.(state := state, metadata := s'.entries[key]))
  {
    var v := UrlQuery.ParseQuery(s.entries[key]).value;
    assert StateKey != GroupKey;
    var before := Record(base, PairAt(s, key)).value;
    var after := Record(base, PairAt(s', key)).value;
    assert v[StateKey := [state]][StateKey][0] == state;
    assert after.group == before.group;
  }

  /** After DeactivateService succeeds, the record built from the instance key reads "inactive", with its other fields kept. */
  lemma DeactivatedRecord(base: Bytes, s: Store, key: Bytes)
    requires Within(base, key) && Deactivated(s, key).outcome == Done
    ensures var s' := Deactivated(s, key).store;
      Record(base, PairAt(s', key)) ==
        Some(Record(base, PairAt(s, key)).value.(state := Inactive, metadata := s'.entries[key]))
  {
    DeactivatedSpec(s, key);
    StateEditRecord(base, s, Deactivated(s, key).store, key, Inactive);
  }

  /** After ActivateService succeeds, the record built from the instance key reads "active", with its other fields kept. */
  lemma ActivatedRecord(base: Bytes, s: Store, key: Bytes)
    requires Within(base, key) && Activated(s, key).outcome == Done
    ensures var s' := Activated(s, key).store;
      Record(base, PairAt(s', key)) ==
        Some(Record(base, PairAt(s, key)).value.(state := Active, metadata := s'.entries[key]))
  {
    ActivatedSpec(s, key);
    StateEditRecord(base, s, Activated(s, key).store, key, Active);
  }

  /**
    ActivateService undoes DeactivateService: once a deactivation succeeds,
    activating the same instance succeeds too, and the record built from the
    instance key reads "active", with its name, address, ID and group as they were.
   */
  lemma DeactivateThenActivate(base: Bytes, s: Store, key: Bytes)
    requires Within(base, key) && Deactivated(s, key).outcome == Done
    ensures var s1 := Deactivated(s, key).store;
      var e := Activated(s1, key);
      && e.outcome == Done
      && Record(base, PairAt(e.store, key)) ==
        Some(Record(base, PairAt(s, key)).value.(state := Active, metadata := e.store.entries[key]))
  {
    DeactivatedSpec(s, key);
    var s1 := Deactivated(s, key).store;
    ActivatedSpec(s1, key);
    DeactivatedRecord(base, s, key);
    ActivatedRecord(base, s1, key);
  }

  /**
    After UpdateMetadata succeeds with a query-string value, the record built
    from the instance key has its own name, address and ID, and that value as
    its metadata.
   */
  lemma UpdatedMetadataRecord(base: Bytes, s: Store, name: Bytes, address: Bytes, metadata: Bytes)
    requires CleanBase(base) && Segment(name) && Segment(address)
    requires UpdatedMetadata(s, InstanceKey(base, name, address), metadata).outcome == Done
    requires UrlQuery.ParseQuery(metadata).Some?
    ensures var key := InstanceKey(base, name, address);
      var svc := Record(base, PairAt(UpdatedMetadata(s, key, metadata).store, key));
      svc.Some? && svc.value.name == name && svc.value.address == address &&
      svc.value.id == ServiceId(name, address) && svc.value.metadata == metadata
  {
    KeyRoundTrip(base, name, address);
  }


  /** No key under the base path other than `key` yields a record with ID `id`. */
  predicate OnlyKeyWithId(s: Store, base: Bytes, key: Bytes, id: Bytes)
  {
    forall k' :: k' in s.entries && Within(base, k') && Record(base, PairAt(s, k')).Some? ==>
      Record(base, PairAt(s, k')).value.id == id ==> k' == key
  }

  /** An edit that writes only at `key` keeps `key` the only one with its ID. */
  lemma OnlyKeyWithIdKept(s: Store, s': Store, base: Bytes, key: Bytes, id: Bytes)
    requires s'.entries.Keys == s.entries.Keys + {key}
    requires forall k :: k in s.entries && k != key ==> s'.entries[k] == s.entries[k]
    requires OnlyKeyWithId(s, base, key, id)
    ensures OnlyKeyWithId(s', base, key, id)
  {
  }

  /**
    After DeactivateService succeeds, FetchServices lists the instance under
    its ID as "inactive" with its other fields kept, provided the base path
    can be listed and no other key of the store yields the same ID.
   */
  lemma DeactivatedListed(base: Bytes, s: Store, key: Bytes)
    requires Within(base, key) && Deactivated(s, key).outcome == Done
    requires base !in s.unreadable
    requires OnlyKeyWithId(s, base, key, Record(base, PairAt(s, key)).value.id)
    ensures var s', svc := Deactivated(s, key).store, Record(base, PairAt(s, key)).value;
      && svc.id in Registered(s', base)
      && Registered(s', base)[svc.id] == svc.(state := Inactive, metadata := s'.entries[key])
  {
    DeactivatedSpec(s, key);
    var s' := Deactivated(s, key).store;
    OnlyKeyWithIdKept(s, s', base, key, Record(base, PairAt(s, key)).value.id);
    DeactivatedRecord(base, s, key);
    RegisteredExact(s', base, key);
  }

  /**
    After ActivateService succeeds, FetchServices lists the instance under
    its ID as "active" with its other fields kept, provided the base path
    can be listed and no other key of the store yields the same ID.
   */
  lemma ActivatedListed(base: Bytes, s: Store, key: Bytes)
    requires Within(base, key) && Activated(s, key).outcome == Done
    requires base !in s.unreadable
    requires OnlyKeyWithId(s, base, key, Record(base, PairAt(s, key)).value.id)
    ensures var s', svc := Activated(s, key).store, Record(base, PairAt(s, key)).value;
      && svc.id in Registered(s', base)
      && Registered(s', base)[svc.id] == svc.(state := Active, metadata := s'.entries[key])
  {
    ActivatedSpec(s, key);
    var s' := Activated(s, key).store;
    OnlyKeyWithIdKept(s, s', base, key, Record(base, PairAt(s, key)).value.id);
    ActivatedRecord(base, s, key);
    RegisteredExact(s', base, key);
  }

  /**
    Deactivating and then activating an instance leaves FetchServices
    listing it as "active" with its name, address, ID and group as they
    were, provided the base path can be listed and no other key of the store
    yields the same ID.
   */
  lemma DeactivateThenActivateListed(base: Bytes, s: Store, key: Bytes)
    requires Within(base, key) && Deactivated(s, key).outcome == Done
    requires base !in s.unreadable
    requires OnlyKeyWithId(s, base, key, Record(base, PairAt(s, key)).value.id)
    ensures var svc := Record(base, PairAt(s, key)).value;
      var s2 := Activated(Deactivated(s, key).store, key).store;
      && svc.id in Registered(s2, base)
      && Registered(s2, base)[svc.id] == svc.(state := Active, metadata := s2.entries[key])
  {
    DeactivatedSpec(s, key);
    var s1 := Deactivated(s, key).store;
    OnlyKeyWithIdKept(s, s1, base, key, Record(base, PairAt(s, key)).value.id);
    DeactivateThenActivate(base, s, key);
    DeactivatedRecord(base, s, key);
    ActivatedListed(base, s1, key);
  }

  /**
    After UpdateMetadata succeeds with a query-string value, FetchServices
    lists the instance under its ID with that value as its metadata,
    provided the base path and the key can be read and no other key of
    the store yields the same ID.
   */
  lemma UpdatedMetadataListed(base: Bytes, s: Store, name: Bytes, address: Bytes, metadata: Bytes)
    requires CleanBase(base) && Segment(name) && Segment(address)
    requires UpdatedMetadata(s, InstanceKey(base, name, address), metadata).outcome == Done
    requires UrlQuery.ParseQuery(metadata).Some?
    requires base !in s.unreadable && InstanceKey(base, name, address) !in s.unreadable
    requires OnlyKeyWithId(s, base, InstanceKey(base, name, address), ServiceId(name, address))
    ensures var key := InstanceKey(base, name, address);
      var r := Registered(UpdatedMetadata(s, key, metadata).store, base);
      && ServiceId(name, address) in r
      && r[ServiceId(name, address)].name == name
      && r[ServiceId(name, address)].address == address
      && r[ServiceId(name, address)].metadata == metadata
  {
    var key := InstanceKey(base, name, address);
    var s' := UpdatedMetadata(s, key, metadata).store;
    OnlyKeyWithIdKept(s, s', base, key, ServiceId(name, address));
    UpdatedMetadataRecord(base, s, name, address, metadata);
    RegisteredExact(s', base, key);
  }
  // ---------------------------------------------------------------------
  // The registry object
  // ---------------------------------------------------------------------

  /** EtcdRegistry: its one field is the store it was connected to. */
  class EtcdRegistry {
    var kv: Store

    /** The registry once InitRegistry has connected it to `kv`. */
    constructor (kv: Store)
      ensures this.kv == kv
    {
      this.kv := kv;
    }

    /**
      FetchServices: every record found under the base path, each once.
      A failing top listing gives no records.
     */
    method FetchServices(base: Bytes) returns (services: seq<Service>)
      requires HasSuffix(base, [Slash])
      ensures forall svc :: svc in services <==> svc in Registered(kv, base).Values
      ensures |services| == |Registered(kv, base)|
      ensures forall i, j :: 0 <= i < j < |services| ==> services[i] != services[j]
      ensures List(kv, base).Err? ==> services == []
    {
      var found: map<Bytes, Service> := map[];
      var top := List(kv, base);
      if top.Err? {
        services := ToList(found);
        return;
      }
      var kvs := top.value;
      ListSound(kv, base);
      var i := 0;
      while i < |kvs|
        invariant 0 <= i <= |kvs|
        invariant Collect(found, Records(base, Flatten(kv, kvs[i..]))) == Registered(kv, base)
      {
        EnterService(kv, base, kvs, i, found, Registered(kv, base));
        ghost var tail := Flatten(kv, kvs[i + 1..]);
        var sub := List(kv, kvs[i].key);
        if sub.Err? {
          assert [] + tail == tail;
          i := i + 1;
          continue;
        }
        var nodes := sub.value;
        ListSound(kv, kvs[i].key);
        assert nodes[0..] == nodes;
        var j := 0;
        while j < |nodes|
          invariant 0 <= j <= |nodes|
          invariant Collect(found, Records(base, nodes[j..] + tail)) == Registered(kv, base)
        {
          VisitInstance(base, nodes, j, tail, found, Registered(kv, base));
          var n := nodes[j];
          PrefixTransitive(n.key, kvs[i].key, base);
          PrefixContains(n.key, base, Slash);
          var name := ServiceName(base, n.key);
          var address := ServiceAddress(n.key);
          var v := UrlQuery.ParseQuery(n.value);
          if v.None? {
            j := j + 1;
            continue;
          }
          var state := NotAvailable;
          var group := [];
          if v.Some? {
            state := UrlQuery.Get(v.value, StateKey);
            if state == [] {
              state := Active;
            }
            group := UrlQuery.Get(v.value, GroupKey);
          }
          var id := ServiceId(name, address);
          var service := Service(id, name, address, n.value, state, group);
          assert Visit(base, n) == Some(service);
          found := found[service.id := service];
          j := j + 1;
        }
        assert nodes[j..] + tail == tail;
        i := i + 1;
      }
      RegisteredById(kv, base);
      services := ToList(found);
    }

    /** DeactivateService: set the instance's state to "inactive". */
    method DeactivateService(base: Bytes, name: Bytes, address: Bytes) returns (outcome: Outcome)
      requires CleanBase(base) && Segment(name) && Segment(address)
      modifies this
      ensures Edit(kv, outcome) == Deactivated(old(kv), InstanceKey(base, name, address))
    {
      var key := InstanceKey(base, name, address);
      var got := Get(kv, key);
      if got.Err? {
        return Failed(StoreFailed(got.error));
      }
      var v := UrlQuery.ParseQuery(got.value.value);
      if v.None? {
        return Failed(ValueNotQuery);
      }
      var edited := UrlQuery.Set(v.value, StateKey, Inactive);
      var put := Put(kv, got.value.key, UrlQuery.Encode(edited));
      if put.Err? {
        return Failed(StoreFailed(put.error));
      }
      kv := put.value;
      outcome := Done;
    }

    /** ActivateService: set the instance's state to "active", with the Get's error unchecked. */
    method ActivateService(base: Bytes, name: Bytes, address: Bytes) returns (outcome: Outcome)
      requires CleanBase(base) && Segment(name) && Segment(address)
      modifies this
      ensures Edit(kv, outcome) == Activated(old(kv), InstanceKey(base, name, address))
    {
      var key := InstanceKey(base, name, address);
      var got := Get(kv, key);
      if got.Err? {
        // the Go code reads the Value of the nil pair a failed Get returns
        return Panicked;
      }
      var v := UrlQuery.ParseQuery(got.value.value);
      if v.None? {
        return Failed(ValueNotQuery);
      }
      var edited := UrlQuery.Set(v.value, StateKey, Active);
      var put := Put(kv, got.value.key, UrlQuery.Encode(edited));
      if put.Err? {
        return Failed(StoreFailed(put.error));
      }
      kv := put.value;
      outcome := Done;
    }

    /** UpdateMetadata: store `metadata` verbatim at the instance's key. */
    method UpdateMetadata(base: Bytes, name: Bytes, address: Bytes, metadata: Bytes) returns (outcome: Outcome)
      requires CleanBase(base) && Segment(name) && Segment(address)
      modifies this
      ensures Edit(kv, outcome) == UpdatedMetadata(old(kv), InstanceKey(base, name, address), metadata)
    {
      var key := InstanceKey(base, name, address);
      var put := Put(kv, key, metadata);
      if put.Err? {
        return Failed(StoreFailed(put.error));
      }
      kv := put.value;
      outcome := Done;
    }
  }
}
