/** Sequence helpers shared by the parsers, the combination table and the sweep. */
module Seqs {
  import opened Results

  ghost predicate Distinct<T>(s: seq<T>)
  {
    forall i, j :: 0 <= i < j < |s| ==> s[i] != s[j]
  }

  /** Position of the last occurrence of `x` in `s`. */
  function LastIndexOf<T(==)>(s: seq<T>, x: T): (r: nat)
    requires x in s
    ensures r < |s| && s[r] == x
    ensures forall j :: r < j < |s| ==> s[j] != x
  {
    if s[|s| - 1] == x then |s| - 1 else LastIndexOf(s[..|s| - 1], x)
  }

  /** The dictionary `{keys[i]: vals[i] for i in range(len(keys))}`: when a key
      repeats, the later entry overwrites the earlier one. */
  function ToMap<K(==), V>(keys: seq<K>, vals: seq<V>): (m: map<K, V>)
    requires |keys| <= |vals|
    ensures m.Keys == set k | k in keys
    ensures forall k :: k in m ==> m[k] == vals[LastIndexOf(keys, k)]
  {
    if keys == [] then map[]
    else ToMap(keys[..|keys| - 1], vals)[keys[|keys| - 1] := vals[|keys| - 1]]
  }

  /** With distinct keys, key `i` is paired with value `i`. */
  lemma ToMapDistinct<K, V>(keys: seq<K>, vals: seq<V>, i: nat)
    requires |keys| <= |vals| && Distinct(keys) && i < |keys|
    ensures keys[i] in ToMap(keys, vals) && ToMap(keys, vals)[keys[i]] == vals[i]
  {
    var r := LastIndexOf(keys, keys[i]);
  }

  /** Concatenation of a sequence of sequences. */
  function Concat<T>(ss: seq<seq<T>>): (r: seq<T>)
  {
    if ss == [] then [] else ss[0] + Concat(ss[1..])
  }

  lemma {:induction false} ConcatAppend<T>(ss: seq<seq<T>>, s: seq<T>)
    ensures Concat(ss + [s]) == Concat(ss) + s
  {
    if ss == [] {
      assert ss + [s] == [s];
    } else {
      assert (ss + [s])[1..] == ss[1..] + [s];
      ConcatAppend(ss[1..], s);
    }
  }

  /** A Python index `k` into a list of length `n`: a negative index counts
      from the end, and an index outside `-n .. n - 1` raises `IndexError`. */
  function PyIndex(n: nat, k: int): (r: Option<nat>)
    ensures r.Some? <==> -(n as int) <= k < n
    ensures r.Some? ==> r.value < n && (r.value == k || r.value == k + n)
  {
    if 0 <= k < n then Some(k)
    else if -(n as int) <= k < 0 then Some(k + n)
    else None
  }

  /** A slice bound as Python resolves it: a negative bound counts from the
      end, and the result is clamped to `0 .. n`. */
  function PyBound(k: int, n: nat): (r: nat)
    ensures r <= n
    ensures 0 <= k <= n ==> r == k
  {
    if k < 0 then (if k + n < 0 then 0 else k + n)
    else if k > n then n
    else k
  }

  /** `s[a:b]`: empty when the resolved start is not before the resolved stop. */
  function PySlice<T>(s: seq<T>, a: int, b: int): (r: seq<T>)
    ensures |r| <= |s|
  {
    var i := PyBound(a, |s|);
    var j := PyBound(b, |s|);
    if i < j then s[i..j] else []
  }

  /** Concatenating two lists of sequences concatenates their concatenations. */
  lemma {:induction false} ConcatSplit<T>(a: seq<seq<T>>, b: seq<seq<T>>)
    ensures Concat(a + b) == Concat(a) + Concat(b)
    decreases |b|
  {
    if b == [] {
      assert a + b == a;
    } else {
      var n := |b| - 1;
      ConcatSplit(a, b[..n]);
      assert a + b == (a + b[..n]) + [b[n]] && b == b[..n] + [b[n]];
      ConcatAppend(a + b[..n], b[n]);
      ConcatAppend(b[..n], b[n]);
    }
  }

  /** `[f(x) for x in s]`. */
  function Map<A, B>(f: A -> B, s: seq<A>): (r: seq<B>)
    ensures |r| == |s|
  {
    if s == [] then [] else Map(f, s[..|s| - 1]) + [f(s[|s| - 1])]
  }

  lemma MapAppend<A, B>(f: A -> B, s: seq<A>, x: A)
    ensures Map(f, s + [x]) == Map(f, s) + [f(x)]
  {
    assert (s + [x])[..|s|] == s;
  }

  /** A prefix one longer is the prefix and the next element. */
  lemma PrefixStep<T>(s: seq<T>, j: nat)
    requires j < |s|
    ensures s[..j + 1] == s[..j] + [s[j]]
  {
  }

  /** One more element of `s` after a fixed prefix `a`. */
  lemma AppendStep<T>(a: seq<T>, s: seq<T>, j: nat)
    requires j < |s|
    ensures a + s[..j + 1] == (a + s[..j]) + [s[j]]
  {
    PrefixStep(s, j);
  }

  /** `a + s` cut after the first `j` elements of `s`. */
  lemma AppendSplit<T>(a: seq<T>, s: seq<T>, j: nat)
    requires j <= |s|
    ensures a + s == (a + s[..j]) + s[j..]
  {
    assert s == s[..j] + s[j..];
  }

  /** The image of a concatenation is the concatenation of the images. */
  lemma {:induction false} MapConcat<A, B>(f: A -> B, s: seq<A>, t: seq<A>)
    ensures Map(f, s + t) == Map(f, s) + Map(f, t)
    decreases |t|
  {
    if t == [] {
      assert s + t == s;
    } else {
      var n := |t| - 1;
      MapConcat(f, s, t[..n]);
      assert s + t == (s + t[..n]) + [t[n]] && t == t[..n] + [t[n]];
      MapAppend(f, s + t[..n], t[n]);
      MapAppend(f, t[..n], t[n]);
    }
  }

  /** Element `i` of the image is the image of element `i`. */
  lemma {:induction false} MapAt<A, B>(f: A -> B, s: seq<A>, i: nat)
    requires i < |s|
    ensures Map(f, s)[i] == f(s[i])
  {
    if i < |s| - 1 {
      MapAt(f, s[..|s| - 1], i);
    }
  }
}
