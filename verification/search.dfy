/** `utils/search.py`: fusion of the dense and sparse query results, and selection of the most
    relevant candidate from the language model's relevance scores. The vector store and the
    language model are not modelled: their results are inputs. */
module Search {
  import opened Wrappers
  import opened Ranking
  import opened Embedding

  /** A vector-store query result: three parallel lists with one inner list per query. */
  datatype QueryResult = QueryResult(documents: seq<seq<string>>, metadatas: seq<seq<Metadata>>, ids: seq<seq<string>>)

  /** The result on any failure: three empty lists. */
  const EmptyResult := QueryResult([], [], [])

  /** `c` is `a` followed by `b`: it splits back into the two, with nothing added or removed. */
  ghost predicate Fuses<T>(a: seq<T>, b: seq<T>, c: seq<T>) {
    |c| == |a| + |b| && c[..|a|] == a && c[|a|..] == b && multiset(c) == multiset(a) + multiset(b)
  }

  /** `hybrid_search`. `dense` is `None` when embedding the query or the dense query raised;
      `sparse` is `None` when the keyword query raised. */
  function HybridSearch(dense: Option<QueryResult>, sparse: Option<QueryResult>): (r: QueryResult)
    ensures dense.None? || sparse.None? ==> r == EmptyResult
    ensures dense.Some? && sparse.Some? ==>
      && Fuses(dense.value.documents, sparse.value.documents, r.documents)
      && Fuses(dense.value.metadatas, sparse.value.metadatas, r.metadatas)
      && Fuses(dense.value.ids, sparse.value.ids, r.ids)
  {
    match (dense, sparse)
    case (Some(d), Some(s)) =>
      QueryResult(d.documents + s.documents, d.metadatas + s.metadatas, d.ids + s.ids)
    case _ => EmptyResult
  }

  /** The scoring loop of `re_rank_documents`: every candidate with its parsed score, or
      `None` as soon as one call fails or its reply is not an integer. */
  function ScoreAll<T>(documents: seq<T>, judge: T -> Option<int>): (r: Option<seq<Scored<T>>>)
    ensures r.Some? <==> forall k :: 0 <= k < |documents| ==> judge(documents[k]).Some?
    ensures r.Some? ==> |r.value| == |documents|
    ensures r.Some? ==> forall k :: 0 <= k < |documents| ==> r.value[k] == Scored(documents[k], judge(documents[k]).value)
  {
    if documents == [] then Some([])
    else
      var rest := ScoreAll(documents[1..], judge);
      if judge(documents[0]).None? then None
      else if rest.None? then
        assert exists k :: 0 <= k < |documents[1..]| && judge(documents[1..][k]).None?;
        None
      else Some([Scored(documents[0], judge(documents[0]).value)] + rest.value)
  }

  /** Candidate `k` has the highest score and no earlier candidate has that score. */
  ghost predicate FirstBest<T>(documents: seq<T>, judge: T -> Option<int>, k: int)
    requires forall j :: 0 <= j < |documents| ==> judge(documents[j]).Some?
  {
    && 0 <= k < |documents|
    && (forall j :: 0 <= j < |documents| ==> judge(documents[j]).value <= judge(documents[k]).value)
    && (forall j :: 0 <= j < k ==> judge(documents[j]).value < judge(documents[k]).value)
  }

  /** `re_rank_documents` over candidates of any type. `judge(c)` is the parsed integer reply to
      the relevance prompt for candidate `c`, or `None` when the call or the parse raised.
      `None` stands for the empty string returned when there is no candidate. */
  function ReRankDocuments<T>(documents: seq<T>, judge: T -> Option<int>): (r: Option<T>)
    ensures |documents| == 0 <==> r.None?
    ensures r.Some? ==> r.value in documents
    // one failed or unparsable reply abandons the ranking for the first candidate
    ensures (exists k :: 0 <= k < |documents| && judge(documents[k]).None?) ==> r == Some(documents[0])
    // otherwise the first candidate with the highest score wins
    ensures (forall j :: 0 <= j < |documents| ==> judge(documents[j]).Some?) && |documents| > 0 ==>
      exists k :: FirstBest(documents, judge, k) && r == Some(documents[k])
  {
    var fallback := if |documents| > 0 then Some(documents[0]) else None;
    match ScoreAll(documents, judge)
    case None => fallback
    case Some(ranked) =>
      if ranked == [] then fallback
      else
        SortDescHead(ranked);
        var k := FirstArgMax(Scores(ranked));
        assert FirstBest(documents, judge, k);
        Some(SortDesc(ranked)[0].item)
  }

  /** Scores 3, 9, 9, 1: the first of the two candidates scoring 9 is chosen. */
  lemma ReRankTieGoesToFirst()
    ensures ReRankDocuments(["a", "b", "c", "d"], (c: string) => Some(if c == "a" then 3 else if c == "d" then 1 else 9)) == Some("b")
  {
    var documents := ["a", "b", "c", "d"];
    var judge := (c: string) => Some(if c == "a" then 3 else if c == "d" then 1 else 9);
    var r := ReRankDocuments(documents, judge);
    var k :| FirstBest(documents, judge, k) && r == Some(documents[k]);
    assert judge(documents[0]).value < judge(documents[1]).value;
    assert k == 1;
  }

  /** Scores are used as given: a reply of 42 beats a reply of 10. */
  lemma ReRankScoresNotClamped()
    ensures ReRankDocuments(["x", "y"], (c: string) => Some(if c == "x" then 10 else 42)) == Some("y")
  {
    var documents := ["x", "y"];
    var judge := (c: string) => Some(if c == "x" then 10 else 42);
    var r := ReRankDocuments(documents, judge);
    var k :| FirstBest(documents, judge, k) && r == Some(documents[k]);
    assert judge(documents[1]).value == 42;
  }
}
