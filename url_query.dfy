/**
  The parts of Go's `net/url` the registry uses: url.ParseQuery, the
  `url.Values` methods Get, Set and Encode, and the query-component
  escaping beneath them (QueryEscape, QueryUnescape).
  Semantics are those of Go 1.17 and later, where a `;` in a query is an error.
 */
module UrlQuery {
  import opened Wrappers
  import opened Strings
  import opened Sorting

  /** url.Values: each key maps to the list of its values. */
  type Values = map<Bytes, seq<Bytes>>

  const Amp: Byte := 38
  const Equals: Byte := 61
  const Semicolon: Byte := 59
  const Percent: Byte := 37
  const Plus: Byte := 43
  const Space: Byte := 32

  /** Values.Get: the first value of `key`, or the empty string. */
  function Get(v: Values, key: Bytes): Bytes
  {
    if key in v && |v[key]| > 0 then v[key][0] else []
  }

  /** Values.Set: `key` now has the single value `x`. */
  function Set(v: Values, key: Bytes, x: Bytes): Values
  {
    v[key := [x]]
  }

  lemma GetSet(v: Values, key: Bytes, x: Bytes, other: Bytes)
    ensures Get(Set(v, key, x), key) == x
    ensures other != key ==> Get(Set(v, key, x), other) == Get(v, other)
  {
  }

  /** Bytes QueryEscape leaves as they are: letters, digits and `-`, `_`, `.`, `~`. */
  predicate Unreserved(c: Byte)
  {
    || 97 <= c <= 122 || 65 <= c <= 90 || 48 <= c <= 57
    || c == 45 || c == 95 || c == 46 || c == 126
  }

  /** An upper-case hexadecimal digit. */
  function UpperHex(n: int): (c: Byte)
    requires 0 <= n < 16
    ensures IsHex(c) && Unhex(c) == n
  {
    if n < 10 then 48 + n else 55 + n
  }

  predicate IsHex(c: Byte)
  {
    48 <= c <= 57 || 97 <= c <= 102 || 65 <= c <= 70
  }

  function Unhex(c: Byte): (n: int)
    requires IsHex(c)
    ensures 0 <= n < 16
  {
    if c <= 57 then c - 48 else if c >= 97 then c - 87 else c - 55
  }

  /** How QueryEscape writes one byte: itself, `+` for a space, or `%XX`. */
  function EscapeByte(c: Byte): Bytes
  {
    if Unreserved(c) then [c]
    else if c == Space then [Plus]
    else [Percent, UpperHex(c / 16), UpperHex(c % 16)]
  }

  /** url.QueryEscape. Its output never holds the bytes that separate a query. */
  function QueryEscape(s: Bytes): (r: Bytes)
    ensures Amp !in r && Equals !in r && Semicolon !in r
  {
    if s == [] then [] else EscapeByte(s[0]) + QueryEscape(s[1..])
  }

  /**
    url.QueryUnescape: `%XX` becomes the byte XX (hex digits of either case),
    `+` becomes a space; a `%` not followed by two hex digits is an error.
   */
  function QueryUnescape(s: Bytes): Option<Bytes>
    decreases |s|
  {
    if s == [] then Some([])
    else if s[0] == Percent then
      if |s| >= 3 && IsHex(s[1]) && IsHex(s[2]) then
        match QueryUnescape(s[3..])
        case None => None
        case Some(t) => Some([Unhex(s[1]) * 16 + Unhex(s[2])] + t)
      else None
    else
      match QueryUnescape(s[1..])
      case None => None
      case Some(t) => Some([if s[0] == Plus then Space else s[0]] + t)
  }

  /** Unescaping an escaped string gives the string back. */
  lemma {:induction false} UnescapeEscape(s: Bytes)
    ensures QueryUnescape(QueryEscape(s)) == Some(s)
  {
    if s != [] {
      var e, rest := EscapeByte(s[0]), QueryEscape(s[1..]);
      UnescapeEscape(s[1..]);
      assert (e + rest)[|e|..] == rest;
      assert s == [s[0]] + s[1..];
    }
  }

  /** Adds one decoded pair, as parseQuery's `m[key] = append(m[key], value)`. */
  function Add(acc: Values, k: Bytes, x: Bytes): Values
  {
    acc[k := (if k in acc then acc[k] else []) + [x]]
  }

  /** parseQuery's loop over the `&`-separated pieces, from the values `acc` decoded so far. */
  function ParsePieces(acc: Values, ps: seq<Bytes>): Option<Values>
    decreases |ps|
  {
    if ps == [] then Some(acc)
    else if ps[0] == [] then ParsePieces(acc, ps[1..])
    else if Semicolon in ps[0] then None
    else
      var (k, x) := Cut(ps[0], Equals);
      match (QueryUnescape(k), QueryUnescape(x))
      case (Some(k'), Some(x')) => ParsePieces(Add(acc, k', x'), ps[1..])
      case _ => None
  }

  /** url.ParseQuery; its error result is None. */
  function ParseQuery(s: Bytes): Option<Values>
  {
    ParsePieces(map[], Split(s, Amp))
  }

  /** Every key that parsing produces has at least one value. */
  predicate NoEmptyLists(v: Values)
  {
    forall k :: k in v ==> v[k] != []
  }

  lemma {:induction false} ParsePiecesNoEmptyLists(acc: Values, ps: seq<Bytes>)
    requires NoEmptyLists(acc)
    requires ParsePieces(acc, ps).Some?
    ensures NoEmptyLists(ParsePieces(acc, ps).value)
    decreases |ps|
  {
    if ps != [] {
      if ps[0] == [] {
        ParsePiecesNoEmptyLists(acc, ps[1..]);
      } else {
        var (k, x) := Cut(ps[0], Equals);
        var k', x' := QueryUnescape(k).value, QueryUnescape(x).value;
        ParsePiecesNoEmptyLists(Add(acc, k', x'), ps[1..]);
      }
    }
  }

  /** A successfully parsed query never maps a key to an empty list. */
  lemma ParsedNoEmptyLists(s: Bytes)
    requires ParseQuery(s).Some?
    ensures NoEmptyLists(ParseQuery(s).value)
  {
    ParsePiecesNoEmptyLists(map[], Split(s, Amp));
  }

  function EncodePair(k: Bytes, x: Bytes): Bytes
  {
    QueryEscape(k) + [Equals] + QueryEscape(x)
  }

  /** The pairs of one key, one per value, in order. */
  function Group(k: Bytes, xs: seq<Bytes>): seq<(Bytes, Bytes)>
  {
    if xs == [] then [] else [(k, xs[0])] + Group(k, xs[1..])
  }

  /** The pairs of the keys `ks`, key by key. */
  function Pairs(v: Values, ks: seq<Bytes>): seq<(Bytes, Bytes)>
    requires forall k :: k in ks ==> k in v
  {
    if ks == [] then [] else Group(ks[0], v[ks[0]]) + Pairs(v, ks[1..])
  }

  function EncodePairs(ps: seq<(Bytes, Bytes)>): (r: seq<Bytes>)
    ensures |r| == |ps|
    ensures forall i :: 0 <= i < |r| ==> r[i] == EncodePair(ps[i].0, ps[i].1)
  {
    if ps == [] then [] else [EncodePair(ps[0].0, ps[0].1)] + EncodePairs(ps[1..])
  }

  /**
    Values.Encode: `key=value` pairs, escaped, joined by `&`, keys in
    increasing order and each key's values in order.
   */
  function Encode(v: Values): Bytes
  {
    Join(EncodePairs(Pairs(v, SortedKeys(v.Keys))), Amp)
  }

  /** The values that the pairs `ps` add to `acc`, in order. */
  function AddAll(acc: Values, ps: seq<(Bytes, Bytes)>): Values
    decreases |ps|
  {
    if ps == [] then acc else AddAll(Add(acc, ps[0].0, ps[0].1), ps[1..])
  }

  /** An encoded pair cuts at its `=` into the escaped key and the escaped value. */
  lemma CutEncodedPair(k: Bytes, x: Bytes)
    ensures EncodePair(k, x) != [] && Semicolon !in EncodePair(k, x)
    ensures Cut(EncodePair(k, x), Equals) == (QueryEscape(k), QueryEscape(x))
  {
    var ek, ex := QueryEscape(k), QueryEscape(x);
    CutAt(ek, Equals, ex);
    assert EncodePair(k, x)[|ek|] == Equals;
  }

  lemma {:induction false} ParseEncodedPairs(acc: Values, ps: seq<(Bytes, Bytes)>)
    ensures ParsePieces(acc, EncodePairs(ps)) == Some(AddAll(acc, ps))
    decreases |ps|
  {
    if ps != [] {
      var (k, x) := ps[0];
      var pieces := EncodePairs(ps);
      assert pieces[0] == EncodePair(k, x);
      assert pieces[1..] == EncodePairs(ps[1..]);
      CutEncodedPair(k, x);
      UnescapeEscape(k);
      UnescapeEscape(x);
      ParseEncodedPairs(Add(acc, k, x), ps[1..]);
    }
  }

  lemma {:induction false} AddAllConcat(acc: Values, a: seq<(Bytes, Bytes)>, b: seq<(Bytes, Bytes)>)
    ensures AddAll(acc, a + b) == AddAll(AddAll(acc, a), b)
    decreases |a|
  {
    if a != [] {
      assert (a + b)[0] == a[0];
      assert (a + b)[1..] == a[1..] + b;
      AddAllConcat(Add(acc, a[0].0, a[0].1), a[1..], b);
    } else {
      assert a + b == b;
    }
  }

  /** Adding one key's pairs appends its values after those already there. */
  lemma {:induction false} AddAllGroup(acc: Values, k: Bytes, xs: seq<Bytes>)
    ensures AddAll(acc, Group(k, xs)) ==
      if xs == [] then acc else acc[k := (if k in acc then acc[k] else []) + xs]
    decreases |xs|
  {
    if xs != [] {
      var g := Group(k, xs);
      assert g[0] == (k, xs[0]) && g[1..] == Group(k, xs[1..]);
      var acc1 := Add(acc, k, xs[0]);
      AddAllGroup(acc1, k, xs[1..]);
      var old0 := if k in acc then acc[k] else [];
      assert old0 + [xs[0]] + xs[1..] == old0 + xs;
      if xs[1..] == [] {
        assert xs == [xs[0]];
      }
    }
  }

  /** The keys of `ks` that have values, with those values. */
  function NonEmptyOn(v: Values, ks: seq<Bytes>): Values
  {
    map k | k in ks && k in v && v[k] != [] :: v[k]
  }

  lemma NonEmptyOnCons(acc: Values, v: Values, ks: seq<Bytes>)
    requires ks != [] && ks[0] in v && ks[0] !in acc
    ensures (if v[ks[0]] == [] then acc else acc[ks[0] := v[ks[0]]]) + NonEmptyOn(v, ks[1..])
      == acc + NonEmptyOn(v, ks)
  {
    var k := ks[0];
    var acc1 := if v[k] == [] then acc else acc[k := v[k]];
    var l, r := acc1 + NonEmptyOn(v, ks[1..]), acc + NonEmptyOn(v, ks);
    assert forall j :: j in ks <==> j == k || j in ks[1..] by {
      assert ks == [k] + ks[1..];
    }
    assert l.Keys == r.Keys;
    forall j | j in l ensures l[j] == r[j] {
      if j == k && v[k] != [] {
        assert l[j] == v[k];
      }
    }
  }

  lemma {:induction false} AddAllPairs(acc: Values, v: Values, ks: seq<Bytes>)
    requires forall k :: k in ks ==> k in v && k !in acc
    requires forall i, j :: 0 <= i < j < |ks| ==> ks[i] != ks[j]
    ensures AddAll(acc, Pairs(v, ks)) == acc + NonEmptyOn(v, ks)
    decreases |ks|
  {
    if ks == [] {
      assert NonEmptyOn(v, ks) == map[];
      assert acc + map[] == acc;
    } else {
      var k := ks[0];
      AddAllConcat(acc, Group(k, v[k]), Pairs(v, ks[1..]));
      AddAllGroup(acc, k, v[k]);
      assert Pairs(v, ks) == Group(k, v[k]) + Pairs(v, ks[1..]);
      assert [] + v[k] == v[k];
      var acc1 := if v[k] == [] then acc else acc[k := v[k]];
      assert AddAll(acc, Group(k, v[k])) == acc1;
      forall j | j in ks[1..] ensures j in v && j !in acc1 {
        var i :| 0 <= i < |ks[1..]| && ks[1..][i] == j;
        assert ks[i + 1] == j;
      }
      forall i, j | 0 <= i < j < |ks[1..]| ensures ks[1..][i] != ks[1..][j] {
        assert ks[1..][i] == ks[i + 1] && ks[1..][j] == ks[j + 1];
      }
      AddAllPairs(acc1, v, ks[1..]);
      NonEmptyOnCons(acc, v, ks);
    }
  }

  /** `v` without the keys that have no values. */
  function NonEmpty(v: Values): (r: Values)
    ensures NoEmptyLists(r)
    ensures forall k :: k in r <==> k in v && v[k] != []
    ensures forall k :: k in r ==> r[k] == v[k]
  {
    map k | k in v && v[k] != [] :: v[k]
  }

  /** Parsing the `&`-join of encoded pairs adds the pairs in order. */
  lemma ParseJoinedPairs(ps: seq<(Bytes, Bytes)>)
    ensures ParseQuery(Join(EncodePairs(ps), Amp)) == Some(AddAll(map[], ps))
  {
    var pieces := EncodePairs(ps);
    ParseEncodedPairs(map[], ps);
    if pieces == [] {
      assert ps == [];
      assert Split([], Amp) == [[]];
      assert ParsePieces(map[], [[]]) == Some(map[]);
    } else {
      SplitJoin(pieces, Amp);
    }
  }

  /**
    Parsing what Encode wrote gives the values back, except for keys that had
    no value, which Encode writes nothing for.
   */
  lemma ParseEncode(v: Values)
    ensures ParseQuery(Encode(v)) == Some(NonEmpty(v))
  {
    var ks := SortedKeys(v.Keys);
    SortedDistinct(ks);
    AddAllPairs(map[], v, ks);
    assert map[] + NonEmptyOn(v, ks) == NonEmpty(v);
    ParseJoinedPairs(Pairs(v, ks));
  }

  /**
    Re-encoding a parsed query with one key set keeps every other key's
    values: the edit ActivateService and DeactivateService make.
   */
  lemma ParseEncodeSet(s: Bytes, key: Bytes, x: Bytes)
    requires ParseQuery(s).Some?
    ensures ParseQuery(Encode(Set(ParseQuery(s).value, key, x))) == Some(ParseQuery(s).value[key := [x]])
  {
    var v := ParseQuery(s).value;
    ParsedNoEmptyLists(s);
    ParseEncode(Set(v, key, x));
    assert NonEmpty(Set(v, key, x)) == v[key := [x]];
  }
}
