/** Sequence combinators shared by the pipeline stages: list comprehensions with a
    condition, flattening, and the order-independence facts the ingestion pool needs. */
module Seqs {

  /** `[x for x in s if p(x)]`. */
  function Filter<T(!new)>(p: T -> bool, s: seq<T>): (r: seq<T>)
    ensures |r| <= |s|
    ensures forall x :: x in r <==> x in s && p(x)
    ensures forall i :: 0 <= i < |r| ==> p(r[i])
  {
    if s == [] then [] else (if p(s[0]) then [s[0]] else []) + Filter(p, s[1..])
  }

  /** Filtering distributes over concatenation, so it keeps the relative order of the kept elements. */
  lemma {:induction false} FilterAppend<T(!new)>(p: T -> bool, a: seq<T>, b: seq<T>)
    ensures Filter(p, a + b) == Filter(p, a) + Filter(p, b)
  {
    if a == [] {
      assert a + b == b;
    } else {
      assert (a + b)[1..] == a[1..] + b;
      FilterAppend(p, a[1..], b);
    }
  }

  /** Filtering twice with the same condition is filtering once. */
  lemma {:induction false} FilterIdempotent<T(!new)>(p: T -> bool, s: seq<T>)
    ensures Filter(p, Filter(p, s)) == Filter(p, s)
  {
    if s != [] {
      FilterIdempotent(p, s[1..]);
      var head := if p(s[0]) then [s[0]] else [];
      FilterAppend(p, head, Filter(p, s[1..]));
      if p(s[0]) {
        assert Filter(p, head) == [s[0]] by {
          assert head[1..] == [];
        }
      }
    }
  }

  /** Every element of `s` satisfies `p` exactly when filtering leaves `s` unchanged. */
  lemma {:induction false} FilterKeepsAll<T(!new)>(p: T -> bool, s: seq<T>)
    ensures (forall i :: 0 <= i < |s| ==> p(s[i])) <==> Filter(p, s) == s
  {
    if s != [] && forall i :: 0 <= i < |s| ==> p(s[i]) {
      var tail := s[1..];
      assert forall i :: 0 <= i < |tail| ==> p(tail[i]) by {
        forall i | 0 <= i < |tail| ensures p(tail[i]) {
          assert tail[i] == s[i + 1];
        }
      }
      FilterKeepsAll(p, tail);
      assert Filter(p, s) == [s[0]] + Filter(p, tail);
      assert s == [s[0]] + tail;
    }
  }

  /** `[y for x in s for y in f(x)]`: each input contributes its own block, in input order. */
  function FlatMap<A, B>(f: A -> seq<B>, s: seq<A>): seq<B> {
    if s == [] then [] else f(s[0]) + FlatMap(f, s[1..])
  }

  /** An output element is exactly an element of the block of some input element. */
  lemma {:induction false} FlatMapMembers<A(!new), B(!new)>(f: A -> seq<B>, s: seq<A>)
    ensures forall y :: y in FlatMap(f, s) <==> exists x :: x in s && y in f(x)
  {
    if s != [] {
      FlatMapMembers(f, s[1..]);
      forall y | y in FlatMap(f, s) ensures exists x :: x in s && y in f(x) {
        if y !in f(s[0]) {
          assert y in FlatMap(f, s[1..]);
          var x :| x in s[1..] && y in f(x);
          assert x in s;
        }
      }
      forall y | exists x :: x in s && y in f(x) ensures y in FlatMap(f, s) {
        var x :| x in s && y in f(x);
        if x != s[0] {
          assert x in s[1..];
        }
      }
    }
  }

  lemma {:induction false} FlatMapAppend<A(!new), B(!new)>(f: A -> seq<B>, a: seq<A>, b: seq<A>)
    ensures FlatMap(f, a + b) == FlatMap(f, a) + FlatMap(f, b)
  {
    if a == [] {
      assert a + b == b;
    } else {
      assert (a + b)[1..] == a[1..] + b;
      FlatMapAppend(f, a[1..], b);
    }
  }

  /** Removing matching occurrences from two permutations of each other leaves permutations. */
  lemma RemoveMatching<A>(s: seq<A>, t: seq<A>, j: nat)
    requires multiset(s) == multiset(t) && s != [] && j < |t| && t[j] == s[0]
    ensures multiset(t[..j] + t[j + 1..]) == multiset(s[1..])
  {
    assert t == t[..j] + [t[j]] + t[j + 1..];
    assert s == [s[0]] + s[1..];
    var m := multiset(t[..j] + t[j + 1..]);
    assert m == multiset(t[..j]) + multiset(t[j + 1..]);
    var x := multiset([s[0]]);
    assert multiset(t) == multiset(t[..j]) + x + multiset(t[j + 1..]);
    assert multiset(s) == x + multiset(s[1..]);
    forall y ensures m[y] == multiset(s[1..])[y] {
      assert multiset(t)[y] == multiset(t[..j])[y] + x[y] + multiset(t[j + 1..])[y];
      assert multiset(s)[y] == x[y] + multiset(s[1..])[y];
    }
  }

  /** The multiset of outputs depends only on the multiset of inputs: processing the
      inputs in any order yields a permutation of the same results. */
  lemma {:induction false} FlatMapPermutation<A(!new), B(!new)>(f: A -> seq<B>, s: seq<A>, t: seq<A>)
    requires multiset(s) == multiset(t)
    ensures multiset(FlatMap(f, s)) == multiset(FlatMap(f, t))
    decreases |s|
  {
    if s == [] {
      assert |t| == |multiset(t)| == 0;
    } else {
      var x := s[0];
      assert x in multiset(t);
      var j :| 0 <= j < |t| && t[j] == x;
      var t' := t[..j] + t[j + 1..];
      RemoveMatching(s, t, j);
      FlatMapPermutation(f, s[1..], t');
      FlatMapSplitAt(f, t, j);
    }
  }

  /** Taking one element out of the middle of the input takes its block out of the output. */
  lemma FlatMapSplitAt<A(!new), B(!new)>(f: A -> seq<B>, t: seq<A>, j: nat)
    requires j < |t|
    ensures multiset(FlatMap(f, t)) == multiset(FlatMap(f, t[..j] + t[j + 1..])) + multiset(f(t[j]))
  {
    var a, b := t[..j], t[j + 1..];
    assert t == a + [t[j]] + b;
    FlatMapAround(f, a, t[j], b);
    FlatMapAppend(f, a, b);
    MultisetMiddle(FlatMap(f, a), f(t[j]), FlatMap(f, b));
  }

  lemma FlatMapAround<A(!new), B(!new)>(f: A -> seq<B>, a: seq<A>, y: A, b: seq<A>)
    ensures FlatMap(f, a + [y] + b) == FlatMap(f, a) + f(y) + FlatMap(f, b)
  {
    assert FlatMap(f, [y]) == f(y) by {
      assert [y][1..] == [];
    }
    FlatMapAppend(f, a + [y], b);
    FlatMapAppend(f, a, [y]);
  }

  lemma MultisetMiddle<T>(p: seq<T>, q: seq<T>, r: seq<T>)
    ensures multiset(p + q + r) == multiset(p + r) + multiset(q)
  {
  }

  /** Number of elements of `s` satisfying `p`. */
  function Count<T(!new)>(p: T -> bool, s: seq<T>): (n: nat)
    ensures n == |Filter(p, s)|
  {
    if s == [] then 0 else (if p(s[0]) then 1 else 0) + Count(p, s[1..])
  }

  /** Concatenation of the groups, in order (`sum(groups, [])`). */
  function Flatten<T>(groups: seq<seq<T>>): seq<T> {
    if groups == [] then [] else Flatten(groups[..|groups| - 1]) + groups[|groups| - 1]
  }

  lemma FlattenSnoc<T>(groups: seq<seq<T>>, g: seq<T>)
    ensures Flatten(groups + [g]) == Flatten(groups) + g
  {
    assert (groups + [g])[..|groups|] == groups;
  }
}
