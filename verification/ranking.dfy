/** Selection of a best-scoring element: `torch.argmax` (first maximal index) and Python's
    stable `list.sort(key=score, reverse=True)` followed by taking the head. */
module Ranking {

  /** Index of the first maximal score. */
  function FirstArgMax(xs: seq<int>): (k: nat)
    requires |xs| > 0
    ensures k < |xs|
    ensures forall j :: 0 <= j < |xs| ==> xs[j] <= xs[k]
    ensures forall j :: 0 <= j < k ==> xs[j] < xs[k]
  {
    if |xs| == 1 then 0
    else
      var k' := FirstArgMax(xs[1..]);
      if xs[0] >= xs[1..][k'] then 0 else 1 + k'
  }

  /** A candidate paired with the score it was given. */
  datatype Scored<T> = Scored(item: T, score: int)

  function Scores<T>(s: seq<Scored<T>>): (xs: seq<int>)
    ensures |xs| == |s|
    ensures forall i :: 0 <= i < |s| ==> xs[i] == s[i].score
  {
    seq(|s|, i requires 0 <= i < |s| => s[i].score)
  }

  ghost predicate SortedDesc<T>(s: seq<Scored<T>>) {
    forall i, j :: 0 <= i < j < |s| ==> s[i].score >= s[j].score
  }

  /** Inserts `x` in front of the first element that does not outscore it, so an element
      that came earlier in the input stays ahead of later ones with the same score. */
  function Insert<T>(x: Scored<T>, t: seq<Scored<T>>): seq<Scored<T>> {
    if t == [] || x.score >= t[0].score then [x] + t else [t[0]] + Insert(x, t[1..])
  }

  /** Stable descending sort by score (insertion sort). */
  function SortDesc<T>(s: seq<Scored<T>>): seq<Scored<T>> {
    if s == [] then [] else Insert(s[0], SortDesc(s[1..]))
  }

  lemma {:induction false} InsertPermutes<T>(x: Scored<T>, t: seq<Scored<T>>)
    ensures multiset(Insert(x, t)) == multiset{x} + multiset(t)
    ensures Insert(x, t)[0] == (if t == [] || x.score >= t[0].score then x else t[0])
  {
    if t != [] && x.score < t[0].score {
      InsertPermutes(x, t[1..]);
      assert t == [t[0]] + t[1..];
    }
  }

  lemma {:induction false} InsertSorted<T>(x: Scored<T>, t: seq<Scored<T>>)
    requires SortedDesc(t)
    ensures SortedDesc(Insert(x, t))
  {
    if t != [] && x.score < t[0].score {
      var r := Insert(x, t[1..]);
      InsertSorted(x, t[1..]);
      InsertPermutes(x, t[1..]);
      forall j | 0 <= j < |r| ensures t[0].score >= r[j].score {
        assert r[j] in multiset(r);
        if r[j] != x {
          assert r[j] in multiset(t[1..]);
          var k :| 0 <= k < |t[1..]| && t[1..][k] == r[j];
          assert t[k + 1] == r[j];
        }
      }
      assert Insert(x, t) == [t[0]] + r;
    }
  }

  /** The sort is a permutation of its input, ordered by non-increasing score. */
  lemma {:induction false} SortDescProperties<T>(s: seq<Scored<T>>)
    ensures SortedDesc(SortDesc(s))
    ensures multiset(SortDesc(s)) == multiset(s)
  {
    if s != [] {
      SortDescProperties(s[1..]);
      InsertSorted(s[0], SortDesc(s[1..]));
      InsertPermutes(s[0], SortDesc(s[1..]));
      assert s == [s[0]] + s[1..];
    }
  }

  /** The head of the stable descending sort is the first candidate with the maximal score. */
  lemma {:induction false} SortDescHead<T>(s: seq<Scored<T>>)
    requires |s| > 0
    ensures |SortDesc(s)| == |s|
    ensures SortDesc(s)[0] == s[FirstArgMax(Scores(s))]
  {
    SortDescProperties(s);
    assert |SortDesc(s)| == |multiset(SortDesc(s))| == |multiset(s)| == |s|;
    var rest := s[1..];
    if rest == [] {
      assert SortDesc(s) == Insert(s[0], []);
    } else {
      SortDescHead(rest);
      SortDescProperties(rest);
      InsertPermutes(s[0], SortDesc(rest));
      assert Scores(s)[1..] == Scores(rest);
    }
  }
}
