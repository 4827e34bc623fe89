/** Small generic helpers shared by the whole model. */
module Util {

  datatype Option<+T> = None | Some(value: T)

  /** No element occurs twice. */
  predicate Distinct<T(==)>(s: seq<T>) {
    forall i, j :: 0 <= i < j < |s| ==> s[i] != s[j]
  }

  /** The elements `f` keeps, in order, each replaced by what `f` makes of it: the
      shape of a C++ loop that `continue`s past some items and `emplace_back`s the rest. */
  function FilterMap<A, B>(s: seq<A>, f: A -> Option<B>): (r: seq<B>)
    ensures |r| <= |s|
  {
    if |s| == 0 then []
    else FilterMap(s[..|s| - 1], f) + (match f(s[|s| - 1]) case Some(b) => [b] case None => [])
  }

  /** One more element processed: what the loop body appends. */
  lemma FilterMapSnoc<A, B>(s: seq<A>, i: nat, f: A -> Option<B>)
    requires i < |s|
    ensures FilterMap(s[..i + 1], f)
         == FilterMap(s[..i], f) + (match f(s[i]) case Some(b) => [b] case None => [])
  {
    assert s[..i + 1][..i] == s[..i];
  }

  /** `FilterMap` keeps exactly what `f` maps to `Some`. */
  lemma {:induction false} FilterMapMember<A, B>(s: seq<A>, f: A -> Option<B>, b: B)
    ensures b in FilterMap(s, f) <==> exists k :: 0 <= k < |s| && f(s[k]) == Some(b)
  {
    if |s| > 0 {
      var p := s[..|s| - 1];
      FilterMapMember(p, f, b);
      if b in FilterMap(p, f) {
        var k :| 0 <= k < |p| && f(p[k]) == Some(b);
        assert s[k] == p[k];
      }
      if exists k :: 0 <= k < |s| && f(s[k]) == Some(b) {
        var k :| 0 <= k < |s| && f(s[k]) == Some(b);
        if k < |p| { assert p[k] == s[k]; }
      }
    }
  }

  /** A distinct sequence has as many elements as the set of its elements. */
  lemma {:induction false} DistinctCardinality<T>(s: seq<T>)
    requires Distinct(s)
    ensures |set x | x in s| == |s|
  {
    if |s| > 0 {
      var p := s[..|s| - 1];
      assert Distinct(p);
      DistinctCardinality(p);
      var last := s[|s| - 1];
      assert last !in p;
      assert (set x | x in s) == (set x | x in p) + {last};
    }
  }
}
