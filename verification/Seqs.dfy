/** Sequence vocabulary shared by the placement, policy and executor models. */
module Seqs {

  datatype Option<+T> = None | Some(value: T)

  function Min(a: int, b: int): int { if a <= b then a else b }

  function Max(a: int, b: int): int { if a >= b then a else b }

  predicate Distinct<T(==)>(s: seq<T>) {
    forall i, j :: 0 <= i < j < |s| ==> s[i] != s[j]
  }

  function Elems<T>(s: seq<T>): set<T> {
    set x | x in s
  }

  /** The first n elements, or all of them; none when n is negative, as in `s[:n]` for
      n >= 0 and in a loop that stops once n elements are gathered. */
  function Take<T>(s: seq<T>, n: int): seq<T> {
    if n <= 0 then [] else if n >= |s| then s else s[..n]
  }

  /** The sequence read circularly from position i. */
  function Rotate<T>(s: seq<T>, i: nat): seq<T>
    requires i <= |s|
  {
    s[i..] + s[..i]
  }

  /** The first occurrences, in order. */
  function Dedup<T(==)>(s: seq<T>): seq<T> {
    if s == [] then []
    else
      var front := Dedup(s[..|s| - 1]);
      var x := s[|s| - 1];
      if x in front then front else front + [x]
  }

  lemma {:induction false} DedupElems<T>(s: seq<T>)
    ensures Distinct(Dedup(s)) && Elems(Dedup(s)) == Elems(s)
    ensures |Dedup(s)| == |Elems(s)|
  {
    if s != [] {
      var front, x := s[..|s| - 1], s[|s| - 1];
      DedupElems(front);
      assert s == front + [x];
      ElemsAppend(front, x);
      ElemsAppend(Dedup(front), x);
      assert x in Dedup(front) <==> x in Elems(Dedup(front));
    }
    DistinctCardinality(Dedup(s));
  }

  lemma ElemsAppend<T>(s: seq<T>, x: T)
    ensures Elems(s + [x]) == Elems(s) + {x}
  {
  }

  lemma ElemsConcat<T>(s: seq<T>, t: seq<T>)
    ensures Elems(s + t) == Elems(s) + Elems(t)
  {
  }

  /** A sequence has as many elements as its set exactly when it has no duplicates. */
  lemma {:induction false} DistinctCardinality<T>(s: seq<T>)
    ensures |Elems(s)| <= |s|
    ensures Distinct(s) <==> |Elems(s)| == |s|
  {
    if s != [] {
      var front, x := s[..|s| - 1], s[|s| - 1];
      DistinctCardinality(front);
      assert s == front + [x];
      ElemsAppend(front, x);
      if x in front {
        var i :| 0 <= i < |front| && front[i] == x;
        assert s[i] == s[|s| - 1];
        assert Elems(s) == Elems(front);
      } else {
        assert x !in Elems(front);
        assert Distinct(s) <==> Distinct(front) by {
          assert forall i, j :: 0 <= i < j < |front| ==> (s[i] == front[i] && s[j] == front[j]);
        }
      }
    }
  }

  /** A duplicate-free sequence whose elements all lie in a set of the same size lists it. */
  lemma SubsetOfSameSize<T>(a: set<T>, b: set<T>)
    requires a <= b && |a| == |b|
    ensures a == b
  {
    assert b == a + (b - a);
    assert |b| == |a| + |b - a|;
  }

  lemma SubsetSize<T>(a: set<T>, b: set<T>)
    requires a <= b
    ensures |a| <= |b|
    ensures a != b ==> |a| < |b|
  {
    assert b == a + (b - a);
    assert |b| == |a| + |b - a|;
    if a != b {
      var x :| x in b - a;
      assert |b - a| > 0;
    }
  }

  lemma RotateIndex<T>(s: seq<T>, i: nat, j: nat)
    requires i < |s| && j < |s|
    ensures Rotate(s, i)[j] == s[(i + j) % |s|]
  {
    OnceRound(i + j, |s|);
  }

  lemma OnceRound(k: nat, n: nat)
    requires k < 2 * n
    ensures k % n == if k < n then k else k - n
  {
  }

  /** Sequences with nothing in common are duplicate-free together exactly when each is. */
  lemma DistinctConcat<T>(s: seq<T>, t: seq<T>)
    requires Elems(s) !! Elems(t)
    ensures Distinct(s + t) <==> Distinct(s) && Distinct(t)
  {
    DistinctCardinality(s);
    DistinctCardinality(t);
    DistinctCardinality(s + t);
    ElemsConcat(s, t);
    assert |Elems(s) + Elems(t)| == |Elems(s)| + |Elems(t)|;
  }

  /** The elements of s stand in t in the same order, at the given places. */
  ghost predicate Embeds<T>(s: seq<T>, t: seq<T>, at: seq<nat>) {
    && |at| == |s|
    && (forall i :: 0 <= i < |at| ==> at[i] < |t| && t[at[i]] == s[i])
    && (forall i, j :: 0 <= i < j < |at| ==> at[i] < at[j])
  }

  /** One more element at the end, kept or not. */
  lemma EmbedsMore<T>(s: seq<T>, t: seq<T>, at: seq<nat>, x: T, kept: bool) returns (more: seq<nat>)
    requires Embeds(s, t, at)
    ensures more == at + (if kept then [|t|] else []) && Embeds(s + (if kept then [x] else []), t + [x], more)
  {
    more := at + (if kept then [|t|] else []);
  }

  /** Dedup keeps the first occurrences, in order, and nothing else. */
  lemma {:induction false} DedupInOrder<T>(s: seq<T>) returns (at: seq<nat>)
    ensures Embeds(Dedup(s), s, at)
    ensures forall k: nat | k < |s| :: k in at <==> s[k] !in s[..k]
  {
    if s == [] {
      at := [];
    } else {
      var front, x := s[..|s| - 1], s[|s| - 1];
      assert s == front + [x];
      var before := DedupInOrder(front);
      DedupElems(front);
      assert x in Dedup(front) <==> x in front by { assert x in Elems(Dedup(front)) <==> x in Elems(front); }
      at := EmbedsMore(Dedup(front), front, before, x, x !in front);
      assert Dedup(front) + [] == Dedup(front);
      forall k: nat | k < |s| ensures k in at <==> s[k] !in s[..k] {
        if k < |front| { assert front[..k] == s[..k]; } else { assert s[..k] == front; }
      }
    }
  }
}
