/** Facts about sequence concatenation and slicing, stated once for any
    element type so that the proofs that use them need not rediscover them
    by extensionality. */
module Sequences {

  lemma AppendAssoc<T>(x: seq<T>, y: seq<T>, z: seq<T>)
    ensures x + (y + z) == (x + y) + z
  {
  }

  lemma AppendEmpty<T>(x: seq<T>)
    ensures x + [] == x && [] + x == x
  {
  }

  /** The head and tail of a concatenation with a non-empty first part. */
  lemma ConsTail<T>(a: seq<T>, b: seq<T>)
    requires a != []
    ensures (a + b)[0] == a[0] && (a + b)[1..] == a[1..] + b
  {
  }

  lemma SnocInit<T>(s: seq<T>, x: T)
    ensures (s + [x])[..|s|] == s && (s + [x])[|s|] == x
  {
  }

  lemma InitLast<T>(s: seq<T>)
    requires s != []
    ensures s[..|s| - 1] + [s[|s| - 1]] == s
  {
  }

  /** A prefix one element longer. */
  lemma PrefixStep<T>(s: seq<T>, i: nat)
    requires i < |s|
    ensures s[..i + 1] == s[..i] + [s[i]]
    ensures s[..i + 1][..i] == s[..i]
  {
  }

  lemma TakeNone<T>(s: seq<T>)
    ensures s[..0] == []
  {
  }

  lemma TakeAll<T>(s: seq<T>)
    ensures s[..|s|] == s
  {
  }

  lemma InCons<T>(s: seq<T>, x: T)
    requires s != []
    ensures x in s <==> x == s[0] || x in s[1..]
  {
    if x in s && x != s[0] {
      var i :| 0 <= i < |s| && s[i] == x;
      assert s[1..][i - 1] == x;
    }
  }

  /** The last `n + 1` elements are the last `n` of all but the last
      element, followed by the last. */
  lemma SuffixOfInit<T>(s: seq<T>, n: nat)
    requires s != [] && n <= |s| - 1
    ensures s[|s| - (n + 1)..] == s[..|s| - 1][|s| - 1 - n..] + [s[|s| - 1]]
  {
  }

  lemma SuffixAll<T>(s: seq<T>)
    ensures s[|s| - 0..] == []
  {
  }

  // ---------------------------------------------------------------------
  // Filtering with a map, and where the kept elements came from

  /** `[f(x) for x in s if p(x)]`. */
  function FilterMap<T, U>(s: seq<T>, p: T -> bool, f: T -> U): seq<U> {
    if s == [] then []
    else FilterMap(s[..|s| - 1], p, f) + (if p(s[|s| - 1]) then [f(s[|s| - 1])] else [])
  }

  /** The positions of the elements of `s` that satisfy `p`, in order. */
  function Positions<T>(s: seq<T>, p: T -> bool): seq<nat> {
    if s == [] then []
    else Positions(s[..|s| - 1], p) + (if p(s[|s| - 1]) then [|s| - 1] else [])
  }

  /** A filtered sequence is a subsequence: its elements are the images of
      the elements at strictly increasing positions, each satisfying `p`. */
  lemma {:induction false} FilterMapPositions<T, U>(s: seq<T>, p: T -> bool, f: T -> U)
    ensures |Positions(s, p)| == |FilterMap(s, p, f)|
    ensures forall k :: 0 <= k < |Positions(s, p)| ==>
      Positions(s, p)[k] < |s| && p(s[Positions(s, p)[k]]) && FilterMap(s, p, f)[k] == f(s[Positions(s, p)[k]])
    ensures forall k, m :: 0 <= k < m < |Positions(s, p)| ==> Positions(s, p)[k] < Positions(s, p)[m]
  {
    if s != [] {
      var n := |s| - 1;
      FilterMapPositions(s[..n], p, f);
      var ps := Positions(s[..n], p);
      var vs := FilterMap(s[..n], p, f);
      assert forall k :: 0 <= k < |ps| ==> s[ps[k]] == s[..n][ps[k]];
      if p(s[n]) {
        assert forall k :: 0 <= k < |ps| ==> (ps + [n])[k] == ps[k] && (vs + [f(s[n])])[k] == vs[k];
      } else {
        assert ps + [] == ps && vs + [] == vs;
      }
    }
  }

  /** Every element satisfying `p` has its position listed. */
  lemma {:induction false} PositionsComplete<T>(s: seq<T>, p: T -> bool)
    ensures forall j :: 0 <= j < |s| && p(s[j]) ==> j in Positions(s, p)
  {
    if s != [] {
      var n := |s| - 1;
      PositionsComplete(s[..n], p);
      assert forall j :: 0 <= j < n ==> s[j] == s[..n][j];
    }
  }
}
