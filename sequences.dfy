/** The two library calls `RegisterAll` makes on its assembly list:
    `Enumerable.Union` and `Array.IndexOf`. */
module Sequences {

  predicate NoDuplicates<T(==)>(s: seq<T>)
  {
    forall i, j :: 0 <= i < j < |s| ==> s[i] != s[j]
  }

  /** The elements of `s` not in `seen`, each at its first occurrence, in the
      order `s` has them. */
  function Distinct<T(==, !new)>(s: seq<T>, seen: set<T>): (r: seq<T>)
    ensures NoDuplicates(r)
    ensures forall x :: x in r <==> x in s && x !in seen
  {
    if |s| == 0 then []
    else if s[0] in seen then Distinct(s[1..], seen)
    else [s[0]] + Distinct(s[1..], seen + {s[0]})
  }

  /** `first.Union(second)`: the elements of both, without duplicates, in
      order of first occurrence (LINQ yields `first`, then `second`, skipping
      every element it has yielded before). */
  function Union<T(==, !new)>(first: seq<T>, second: seq<T>): (r: seq<T>)
    ensures NoDuplicates(r)
    ensures forall x :: x in r <==> x in first || x in second
  {
    Distinct(first + second, {})
  }

  /** The set of elements of `s`. */
  function Elements<T(!new)>(s: seq<T>): (r: set<T>)
    ensures forall x :: x in r <==> x in s
  {
    if |s| == 0 then {} else {s[0]} + Elements(s[1..])
  }

  /** The tail of a duplicate-free prefix disjoint from `seen` is duplicate-free
      and disjoint from `seen` plus the head. */
  lemma TailStaysDistinct<T>(p: seq<T>, seen: set<T>)
    requires |p| > 0 && NoDuplicates(p)
    requires forall x :: x in p ==> x !in seen
    ensures NoDuplicates(p[1..])
    ensures forall x :: x in p[1..] ==> x !in seen + {p[0]}
  {
  }

  /** One step of `Distinct` on an unseen head. */
  lemma DistinctUnseenHead<T(!new)>(x: T, s: seq<T>, seen: set<T>)
    requires x !in seen
    ensures Distinct([x] + s, seen) == [x] + Distinct(s, seen + {x})
  {
    assert ([x] + s)[0] == x && ([x] + s)[1..] == s;
  }

  /** Seeing the head and then the rest of `p` is seeing all of `p`. */
  lemma SeenThroughHead<T(!new)>(p: seq<T>, seen: set<T>)
    requires |p| > 0
    ensures (seen + {p[0]}) + Elements(p[1..]) == seen + Elements(p)
  {
    assert Elements(p) == {p[0]} + Elements(p[1..]);
  }

  /** A prefix without duplicates and disjoint from `seen` survives as is. */
  lemma {:induction false} DistinctKeepsPrefix<T(!new)>(p: seq<T>, q: seq<T>, seen: set<T>)
    requires NoDuplicates(p)
    requires forall x :: x in p ==> x !in seen
    ensures Distinct(p + q, seen) == p + Distinct(q, seen + Elements(p))
    decreases |p|
  {
    if |p| == 0 {
      assert p + q == q;
      assert seen + Elements(p) == seen;
    } else {
      var rest, seen' := p[1..], seen + {p[0]};
      ConsSplit(p, q);
      DistinctUnseenHead(p[0], rest + q, seen);
      TailStaysDistinct(p, seen);
      DistinctKeepsPrefix(rest, q, seen');
      SeenThroughHead(p, seen);
      var tail := Distinct(q, seen + Elements(p));
      calc {
        Distinct(p + q, seen);
        Distinct([p[0]] + (rest + q), seen);
        [p[0]] + Distinct(rest + q, seen');
        [p[0]] + (rest + tail);
        p + tail;
      }
    }
  }

  /** A non-empty `p` is its head followed by its tail, also in front of `q`. */
  lemma ConsSplit<T>(p: seq<T>, q: seq<T>)
    requires |p| > 0
    ensures p + q == [p[0]] + (p[1..] + q)
    ensures forall tail: seq<T> {:trigger p + tail} :: [p[0]] + (p[1..] + tail) == p + tail
  {
    assert p == [p[0]] + p[1..];
  }

  /** Union keeps `first` in place, when it has no duplicates of its own, and
      appends the new elements of `second` in their order. */
  lemma UnionKeepsOrder<T(!new)>(first: seq<T>, second: seq<T>)
    requires NoDuplicates(first)
    ensures Union(first, second) == first + Distinct(second, Elements(first))
  {
    DistinctKeepsPrefix(first, second, {});
    assert {} + Elements(first) == Elements(first);
  }

  /** `Array.IndexOf(s, x)`: the first index holding `x`, or -1. */
  function IndexOf<T(==)>(s: seq<T>, x: T): (i: int)
    ensures -1 <= i < |s|
    ensures i == -1 <==> x !in s
    ensures 0 <= i ==> s[i] == x && forall j :: 0 <= j < i ==> s[j] != x
  {
    if |s| == 0 then -1
    else if s[0] == x then 0
    else
      var k := IndexOf(s[1..], x);
      if k == -1 then -1 else k + 1
  }
}
