/**
  The parts of Go's `strings` package the registry uses, over byte strings.
  A Go string is an immutable sequence of bytes, so it is modelled as `Bytes`.
 */
module Strings {

  type Byte = b: int | 0 <= b < 256

  type Bytes = seq<Byte>

  /** The byte `/`. */
  const Slash: Byte := 47

  /** strings.HasPrefix */
  predicate HasPrefix(s: Bytes, p: Bytes)
  {
    |p| <= |s| && s[..|p|] == p
  }

  /** strings.HasSuffix */
  predicate HasSuffix(s: Bytes, x: Bytes)
  {
    |x| <= |s| && s[|s| - |x|..] == x
  }

  /** strings.TrimPrefix: `s` without the leading `p`, or `s` itself. */
  function TrimPrefix(s: Bytes, p: Bytes): (r: Bytes)
    ensures HasPrefix(s, p) ==> s == p + r
    ensures !HasPrefix(s, p) ==> r == s
  {
    if HasPrefix(s, p) then s[|p|..] else s
  }

  /** The first position at or after `from` that holds `c`, or -1. */
  function IndexFrom(s: Bytes, c: Byte, from: nat): (i: int)
    requires from <= |s|
    ensures i == -1 || from <= i < |s|
    ensures i >= 0 ==> s[i] == c
    ensures forall j :: from <= j < |s| && (i == -1 || j < i) ==> s[j] != c
    decreases |s| - from
  {
    if from == |s| then -1
    else if s[from] == c then from
    else IndexFrom(s, c, from + 1)
  }

  /** strings.Index for a one-byte separator: the first position of `c`, or -1. */
  function Index(s: Bytes, c: Byte): (i: int)
    ensures -1 <= i < |s|
    ensures i >= 0 ==> s[i] == c
    ensures forall j :: 0 <= j < |s| && (i == -1 || j < i) ==> s[j] != c
    ensures i == -1 <==> c !in s
  {
    IndexFrom(s, c, 0)
  }

  /** The last position below `n` that holds `c`, or -1. */
  function LastIndexBelow(s: Bytes, c: Byte, n: nat): (i: int)
    requires n <= |s|
    ensures -1 <= i < n
    ensures i >= 0 ==> s[i] == c
    ensures forall j :: i < j < n ==> s[j] != c
  {
    if n == 0 then -1
    else if s[n - 1] == c then n - 1
    else LastIndexBelow(s, c, n - 1)
  }

  /** strings.LastIndex for a one-byte separator: the last position of `c`, or -1. */
  function LastIndex(s: Bytes, c: Byte): (i: int)
    ensures -1 <= i < |s|
    ensures i >= 0 ==> s[i] == c
    ensures forall j :: i < j < |s| ==> s[j] != c
    ensures i == -1 <==> c !in s
  {
    LastIndexBelow(s, c, |s|)
  }

  /** The conditions LastIndex's contract states pick out one position. */
  lemma LastIndexIs(s: Bytes, c: Byte, j: int)
    requires 0 <= j < |s| && s[j] == c
    requires forall k :: j < k < |s| ==> s[k] != c
    ensures LastIndex(s, c) == j
  {
  }

  /** `p` is a prefix of `s` and `q` of `p`, so `q` is a prefix of `s`. */
  lemma PrefixTransitive(s: Bytes, p: Bytes, q: Bytes)
    requires HasPrefix(s, p) && HasPrefix(p, q)
    ensures HasPrefix(s, q)
  {
    assert s[..|q|] == s[..|p|][..|q|];
  }

  /** A string that starts with a string ending in `c` contains `c`. */
  lemma PrefixContains(s: Bytes, p: Bytes, c: Byte)
    requires HasPrefix(s, p) && HasSuffix(p, [c])
    ensures c in s
  {
    assert s[|p| - 1] == p[|p| - 1] == c;
  }

  /** strings.Join with a one-byte separator. */
  function Join(xs: seq<Bytes>, sep: Byte): Bytes
  {
    if |xs| == 0 then []
    else if |xs| == 1 then xs[0]
    else xs[0] + [sep] + Join(xs[1..], sep)
  }

  /** strings.Cut with a one-byte separator: the parts before and after the first `sep`. */
  function Cut(s: Bytes, sep: Byte): (r: (Bytes, Bytes))
    ensures sep !in r.0
    ensures sep in s ==> s == r.0 + [sep] + r.1
    ensures sep !in s ==> r == (s, [])
  {
    var i := Index(s, sep);
    if i < 0 then (s, [])
    else
      assert s == s[..i] + [sep] + s[i + 1..];
      (s[..i], s[i + 1..])
  }

  /** Cutting `a + [sep] + b` where `a` has no `sep` gives `a` and `b`. */
  lemma CutAt(a: Bytes, sep: Byte, b: Bytes)
    requires sep !in a
    ensures Cut(a + [sep] + b, sep) == (a, b)
  {
    var s := a + [sep] + b;
    assert s[|a|] == sep;
    assert s[..|a|] == a && s[|a| + 1..] == b;
  }

  /**
    strings.Split with a one-byte separator: the pieces between the
    separators, one more piece than there are separators.
   */
  function Split(s: Bytes, sep: Byte): (r: seq<Bytes>)
    ensures |r| >= 1
    ensures forall k :: 0 <= k < |r| ==> sep !in r[k]
    decreases |s|
  {
    if sep !in s then [s]
    else
      var (head, rest) := Cut(s, sep);
      assert |s| == |head| + 1 + |rest|;
      [head] + Split(rest, sep)
  }

  /** Joining a piece onto a non-empty list puts one separator between them. */
  lemma JoinCons(a: Bytes, rest: seq<Bytes>, sep: Byte)
    requires |rest| >= 1
    ensures Join([a] + rest, sep) == a + [sep] + Join(rest, sep)
  {
    assert ([a] + rest)[1..] == rest;
  }

  /** Joining the pieces of a split with the separator gives the string back. */
  lemma {:induction false} JoinSplit(s: Bytes, sep: Byte)
    ensures Join(Split(s, sep), sep) == s
    decreases |s|
  {
    if sep in s {
      var (head, rest) := Cut(s, sep);
      JoinSplit(rest, sep);
      JoinCons(head, Split(rest, sep), sep);
    }
  }

  /** A split has more than one piece exactly when the separator occurs. */
  lemma SplitCount(s: Bytes, sep: Byte)
    ensures |Split(s, sep)| > 1 <==> sep in s
  {
  }

  /** The last piece of a split is what follows the last separator. */
  lemma SplitLast(s: Bytes, sep: Byte)
    requires sep in s
    ensures Split(s, sep)[|Split(s, sep)| - 1] == s[LastIndex(s, sep) + 1..]
  {
    var l := LastIndex(s, sep);
    assert s == s[..l] + [sep] + s[l + 1..];
    SplitAppend(s[..l], sep, s[l + 1..]);
  }

  /** A last separator splits off exactly one last piece. */
  lemma {:induction false} SplitAppend(a: Bytes, sep: Byte, b: Bytes)
    requires sep !in b
    ensures Split(a + [sep] + b, sep) == Split(a, sep) + [b]
    decreases |a|
  {
    if sep !in a {
      SplitCons(a, sep, b);
    } else {
      var (head, rest) := Cut(a, sep);
      assert a + [sep] + b == head + [sep] + (rest + [sep] + b);
      SplitCons(head, sep, rest + [sep] + b);
      SplitCons(head, sep, rest);
      SplitAppend(rest, sep, b);
      calc {
        Split(a + [sep] + b, sep);
        Split(head + [sep] + (rest + [sep] + b), sep);
        [head] + Split(rest + [sep] + b, sep);
        [head] + (Split(rest, sep) + [b]);
        ([head] + Split(rest, sep)) + [b];
        Split(a, sep) + [b];
      }
    }
  }

  /** A first separator splits off exactly one first piece. */
  lemma SplitCons(a: Bytes, sep: Byte, b: Bytes)
    requires sep !in a
    ensures Split(a + [sep] + b, sep) == [a] + Split(b, sep)
  {
    var s := a + [sep] + b;
    assert sep in s by { assert s[|a|] == sep; }
    CutAt(a, sep, b);
  }

  /** Splitting a join of separator-free pieces gives the pieces back. */
  lemma {:induction false} SplitJoin(xs: seq<Bytes>, sep: Byte)
    requires |xs| >= 1
    requires forall k :: 0 <= k < |xs| ==> sep !in xs[k]
    ensures Split(Join(xs, sep), sep) == xs
  {
    if |xs| > 1 {
      var rest := xs[1..];
      assert xs == [xs[0]] + rest;
      JoinCons(xs[0], rest, sep);
      assert sep !in xs[0];
      SplitCons(xs[0], sep, Join(rest, sep));
      SplitJoin(rest, sep);
    }
  }
}
