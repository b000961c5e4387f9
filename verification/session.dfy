/** `main.py`: the query session run after ingestion and indexing. Console input is the
    sequence of lines typed; the vector store, the chat model, the tokenizer and the sentence
    encoder are the functions in `Services`. */
module Session {
  import opened Wrappers
  import opened Text
  import opened PdfPreprocessing
  import opened DocumentProcessing
  import opened Embedding
  import opened Search
  import opened Qa

  /** The line that ends the query prompt, compared after lower-casing. */
  const DoneCommand := "done"

  predicate IsDone(line: string) {
    Lower(line) == DoneCommand
  }

  /** The query prompt loop: every line before the first `done` is a query, in order. `None`
      when the input ends first, since `input()` then raises and `main` gives up. */
  function CollectQueries(inputs: seq<string>): (queries: Option<seq<string>>)
    ensures queries.Some? <==> exists k :: 0 <= k < |inputs| && IsDone(inputs[k])
    ensures queries.Some? ==>
      && |queries.value| < |inputs|
      && queries.value == inputs[..|queries.value|]
      && IsDone(inputs[|queries.value|])
      && (forall k :: 0 <= k < |queries.value| ==> !IsDone(queries.value[k]))
  {
    if inputs == [] then None
    else if IsDone(inputs[0]) then Some([])
    else
      match CollectQueries(inputs[1..])
      case None => None
      case Some(rest) =>
        assert inputs == [inputs[0]] + inputs[1..];
        Some([inputs[0]] + rest)
  }

  /** Lines typed after `done` are never read. */
  lemma {:induction false} CollectQueriesStopsAtDone(inputs: seq<string>, later: seq<string>)
    requires CollectQueries(inputs).Some?
    ensures CollectQueries(inputs + later) == CollectQueries(inputs)
  {
    assert (inputs + later)[0] == inputs[0];
    if !IsDone(inputs[0]) {
      assert (inputs + later)[1..] == inputs[1..] + later;
      CollectQueriesStopsAtDone(inputs[1..], later);
    }
  }

  /** The phrases that mark an answer as giving no information, matched case-insensitively. */
  const UninformativePhrases: seq<string> := ["the document does not provide information", "no information found", "not available"]

  predicate IsUninformative(answer: string) {
    exists k | 0 <= k < |UninformativePhrases| :: Contains(Lower(answer), Lower(UninformativePhrases[k]))
  }

  /** Where an answer is attributed: nowhere for an uninformative answer, otherwise a file and
      the page found in it (`None` when no page could be found). */
  datatype Provenance = NoSource | Attributed(sourceFile: string, page: Option<int>)

  /** One line of the results table. */
  datatype QueryRow = QueryRow(number: int, query: string, answer: string, provenance: Provenance)

  /** The foreign services a query goes through. `dense` and `sparse` are the vector store's
      answers to the embedded and to the textual query, `None` when they raise; `judge` scores
      a candidate for a query; `complete` answers a query from a context; `tokenize`,
      `similarity` and `encoderLoads` are what page attribution uses. */
  datatype Services = Services(
    dense: string -> Option<QueryResult>,
    sparse: string -> Option<QueryResult>,
    judge: (string, seq<string>) -> Option<int>,
    complete: (string, string) -> Option<string>,
    tokenize: string -> seq<string>,
    similarity: (string, string) -> int,
    encoderLoads: bool)

  /** The file named by the first metadata entry of the first result list; `None` when there
      is none, where indexing raises and ends the session. */
  function SourceFile(metadatas: seq<seq<Metadata>>): (file: Option<string>)
    ensures file.Some? <==> |metadatas| > 0 && |metadatas[0]| > 0
    ensures file.Some? ==> file.value == metadatas[0][0].fileName
  {
    if |metadatas| > 0 && |metadatas[0]| > 0 then Some(metadatas[0][0].fileName) else None
  }

  /** The page texts of the first document called `fileName`, or no pages when there is none. */
  function PageTextsOf(documents: seq<Document>, fileName: string): (pages: seq<PageText>)
    ensures (forall k :: 0 <= k < |documents| ==> documents[k].fileName != fileName) ==> pages == []
    ensures (exists k :: 0 <= k < |documents| && documents[k].fileName == fileName) ==>
      exists k :: 0 <= k < |documents| && documents[k].fileName == fileName && pages == documents[k].pageTexts
        && forall j :: 0 <= j < k ==> documents[j].fileName != fileName
  {
    if documents == [] then []
    else if documents[0].fileName == fileName then documents[0].pageTexts
    else
      var pages := PageTextsOf(documents[1..], fileName);
      FirstMatchInTail(documents, fileName, pages);
      pages
  }

  /** When the first document does not match, the first match of the tail is the first match. */
  lemma FirstMatchInTail(documents: seq<Document>, fileName: string, pages: seq<PageText>)
    requires documents != [] && documents[0].fileName != fileName
    requires (exists k :: 0 <= k < |documents[1..]| && documents[1..][k].fileName == fileName) ==>
      exists k :: 0 <= k < |documents[1..]| && documents[1..][k].fileName == fileName && pages == documents[1..][k].pageTexts
        && forall j :: 0 <= j < k ==> documents[1..][j].fileName != fileName
    ensures (exists k :: 0 <= k < |documents| && documents[k].fileName == fileName) ==>
      exists k :: 0 <= k < |documents| && documents[k].fileName == fileName && pages == documents[k].pageTexts
        && forall j :: 0 <= j < k ==> documents[j].fileName != fileName
  {
    if exists k :: 0 <= k < |documents| && documents[k].fileName == fileName {
      var k0 :| 0 <= k0 < |documents| && documents[k0].fileName == fileName;
      assert documents[1..][k0 - 1] == documents[k0];
      var k :| 0 <= k < |documents[1..]| && documents[1..][k].fileName == fileName && pages == documents[1..][k].pageTexts
        && forall j :: 0 <= j < k ==> documents[1..][j].fileName != fileName;
      forall j | 0 < j < k + 1 ensures documents[j].fileName != fileName {
        assert documents[j] == documents[1..][j - 1];
      }
      assert documents[k + 1] == documents[1..][k];
    }
  }

  /** The context handed to the answer prompt: the chosen candidate list joined by spaces, or
      the empty string when there was no candidate. */
  function Context(winner: Option<seq<string>>): (context: string)
    ensures winner.None? ==> context == ""
    // the candidate's pieces in order, single spaces between them (laid out by `JoinLayout`)
    ensures winner.Some? ==> context == Join(" ", winner.value)
    // the context has exactly the candidate's words, and its pieces come back when they hold no space
    ensures winner.Some? ==> WordCount(context) == GroupWords(winner.value)
    ensures winner.Some? && |winner.value| > 0 && (forall k :: 0 <= k < |winner.value| ==> ' ' !in winner.value[k]) ==>
      Split(context, ' ') == winner.value
  {
    match winner
    case None => ""
    case Some(candidate) =>
      JoinWords(candidate);
      assert |candidate| > 0 && (forall k :: 0 <= k < |candidate| ==> ' ' !in candidate[k]) ==>
        Split(Join(" ", candidate), ' ') == candidate
      by {
        if |candidate| > 0 && forall k :: 0 <= k < |candidate| ==> ' ' !in candidate[k] {
          SplitJoin(candidate, ' ');
        }
      }
      Join(" ", candidate)
  }

  /** Pieces that hold spaces keep their order: `["a b", "c"]` gives `"a b c"`, never `"c a b"`. */
  lemma ContextKeepsOrder()
    ensures Context(Some(["a b", "c"])) == "a b c"
    ensures Context(Some(["a b", "c"])) != "c a b"
  {
    var xs := ["a b", "c"];
    assert xs[1..] == ["c"];
  }

  /** The search results for `query`: with no vector store every query fails. */
  function Retrieve(query: string, storeReady: bool, svc: Services): QueryResult {
    if storeReady then HybridSearch(svc.dense(query), svc.sparse(query))
    else HybridSearch(None, None)
  }

  /** The answer for `query`: the model's reply given the re-ranked best candidate. */
  function Answer(query: string, found: QueryResult, svc: Services): string {
    var winner := ReRankDocuments(found.documents, (candidate: seq<string>) => svc.judge(query, candidate));
    GetAnswerFromDocuments(svc.complete(query, Context(winner)))
  }

  /** One turn of the query loop of `main`; `None` when attributing the answer raises. */
  function AnswerQuery(number: int, query: string, documents: seq<Document>, storeReady: bool, svc: Services): (row: Option<QueryRow>)
    ensures var found := Retrieve(query, storeReady, svc);
      var answer := Answer(query, found, svc);
      && (row.None? <==> !IsUninformative(answer) && SourceFile(found.metadatas).None?)
      && (row.Some? ==> row.value.number == number && row.value.query == query && row.value.answer == answer)
      && (row.Some? ==> (row.value.provenance.NoSource? <==> IsUninformative(answer)))
      && (row.Some? && row.value.provenance.Attributed? ==>
            var file := row.value.provenance.sourceFile;
            && SourceFile(found.metadatas) == Some(file)
            && row.value.provenance.page == FindPageNumber(svc.tokenize(query), PageTextsOf(documents, file), svc.similarity, svc.encoderLoads))
  {
    var found := Retrieve(query, storeReady, svc);
    var answer := Answer(query, found, svc);
    if IsUninformative(answer) then Some(QueryRow(number, query, answer, NoSource))
    else
      match SourceFile(found.metadatas)
      case None => None
      case Some(file) =>
        var pages := PageTextsOf(documents, file);
        Some(QueryRow(number, query, answer, Attributed(file, FindPageNumber(svc.tokenize(query), pages, svc.similarity, svc.encoderLoads))))
  }

  /** The rows of the query loop, the turn for the `i`-th query (from 0) being `turn(first + i, query)`;
      `None` as soon as one turn raises. */
  function AnswerAll(queries: seq<string>, first: int, turn: (int, string) -> Option<QueryRow>): (rows: Option<seq<QueryRow>>)
    ensures rows.Some? <==> forall i :: 0 <= i < |queries| ==> turn(first + i, queries[i]).Some?
    ensures rows.Some? ==> |rows.value| == |queries|
    ensures rows.Some? ==> forall i :: 0 <= i < |queries| ==> Some(rows.value[i]) == turn(first + i, queries[i])
    decreases |queries|
  {
    if queries == [] then Some([])
    else
      match turn(first, queries[0])
      case None => None
      case Some(row) =>
        match AnswerAll(queries[1..], first + 1, turn)
        case None =>
          assert exists i :: 0 <= i < |queries[1..]| && turn(first + 1 + i, queries[1..][i]).None?;
          None
        case Some(rows) => Some([row] + rows)
  }

  /** One turn of the query loop, as a function of the row number and the query. */
  function Turn(documents: seq<Document>, storeReady: bool, svc: Services): (int, string) -> Option<QueryRow> {
    (n: int, q: string) => AnswerQuery(n, q, documents, storeReady, svc)
  }

  /** `rows` holds one row per query, the `i`-th (from 0) being the turn numbered `i + 1`, unless
      some turn raises. */
  ghost predicate AnswersInOrder(rows: Option<seq<QueryRow>>, queries: seq<string>, turn: (int, string) -> Option<QueryRow>) {
    && (rows.Some? <==> forall i :: 0 <= i < |queries| ==> turn(i + 1, queries[i]).Some?)
    && (rows.Some? ==> |rows.value| == |queries|)
    && (rows.Some? ==> forall i :: 0 <= i < |queries| ==> Some(rows.value[i]) == turn(i + 1, queries[i]))
  }

  /** The query session of `main`: read the queries, answer them in order and number the rows
      from 1. `storeReady` is false when building the vector store failed. */
  function RunSession(inputs: seq<string>, documents: seq<Document>, storeReady: bool, svc: Services): (rows: Option<seq<QueryRow>>)
    ensures CollectQueries(inputs).None? ==> rows.None?
    ensures rows.Some? ==>
      var queries := CollectQueries(inputs).value;
      && CollectQueries(inputs).Some?
      && |rows.value| == |queries|
      && forall i :: 0 <= i < |rows.value| ==> rows.value[i].number == i + 1 && rows.value[i].query == queries[i]
  {
    match CollectQueries(inputs)
    case None => None
    case Some(queries) =>
      var turn := Turn(documents, storeReady, svc);
      var rows := AnswerAll(queries, 1, turn);
      assert rows.Some? ==> forall i :: 0 <= i < |rows.value| ==> Some(rows.value[i]) == turn(1 + i, queries[i]);
      rows
  }

  /** Each row is the turn for its query, and the session ends without rows exactly when some
      turn raises. */
  lemma RunSessionTurns(inputs: seq<string>, documents: seq<Document>, storeReady: bool, svc: Services)
    requires CollectQueries(inputs).Some?
    ensures AnswersInOrder(RunSession(inputs, documents, storeReady, svc), CollectQueries(inputs).value, Turn(documents, storeReady, svc))
  {
    var queries := CollectQueries(inputs).value;
    var turn := Turn(documents, storeReady, svc);
    assert forall i :: 0 <= i < |queries| ==> turn(1 + i, queries[i]) == turn(i + 1, queries[i]);
  }

  /** The source file is the first dense hit, whichever candidate the re-ranker chose to
      answer from. */
  lemma SourceIsFirstDenseHit(query: string, documents: seq<Document>, svc: Services, dense: QueryResult)
    requires svc.dense(query) == Some(dense) && svc.sparse(query).Some?
    requires |dense.metadatas| > 0 && |dense.metadatas[0]| > 0
    requires !IsUninformative(Answer(query, Retrieve(query, true, svc), svc))
    ensures var row := AnswerQuery(1, query, documents, true, svc);
      row.Some? && row.value.provenance == Attributed(dense.metadatas[0][0].fileName, row.value.provenance.page)
  {
    var found := Retrieve(query, true, svc);
    assert found.metadatas[..|dense.metadatas|] == dense.metadatas;
    assert found.metadatas[0] == dense.metadatas[0];
  }

  /** When retrieval fails, an informative answer cannot be attributed and ends the session. */
  lemma FailedSearchEndsSession(query: string, documents: seq<Document>, storeReady: bool, svc: Services)
    requires !storeReady || svc.dense(query).None? || svc.sparse(query).None?
    ensures var found := Retrieve(query, storeReady, svc);
      AnswerQuery(1, query, documents, storeReady, svc).None? <==> !IsUninformative(Answer(query, found, svc))
  {
  }

  /** A lower-case letter absent from `s` in both cases is absent from `Lower(s)`. */
  lemma LowerKeepsAbsent(s: string, c: char)
    requires 'a' <= c <= 'z' && c !in s && (c as int - 32) as char !in s
    ensures c !in Lower(s)
  {
    forall k | 0 <= k < |s| ensures Lower(s)[k] != c {
      assert s[k] != c && s[k] != (c as int - 32) as char;
    }
  }

  /** A phrase holding a character the text lacks does not occur in it. */
  lemma MissingCharRulesOut(s: string, p: string, j: int)
    requires 0 <= j < |p| && p[j] !in s
    ensures !Contains(s, p)
  {
  }

  /** The error answer has no `v` and no `f` in either case. */
  lemma ErrorAnswerLacks(c: char)
    requires c in "vVfF"
    ensures c !in ErrorAnswer
  {
    var e := ErrorAnswer;
    forall k | 0 <= k < 15 ensures e[k] != c {
      assert e[k] in "Unable togeriswdu.";
    }
    forall k | 15 <= k < 30 ensures e[k] != c {
      assert e[k] in "Unable togeriswdu.";
    }
    forall k | 30 <= k < |e| ensures e[k] != c {
      assert e[k] in "Unable togeriswdu.";
    }
  }

  /** Each phrase holds a `v` or an `f`. */
  lemma PhrasesHoldRareLetters()
    ensures Lower(UninformativePhrases[0])[25] == 'v'
    ensures Lower(UninformativePhrases[1])[5] == 'f'
    ensures Lower(UninformativePhrases[2])[5] == 'v'
  {
    assert UninformativePhrases[0][25] == 'v';
    assert UninformativePhrases[1][5] == 'f';
    assert UninformativePhrases[2][5] == 'v';
  }

  /** The error answer of a failed completion is not uninformative, so it is still attributed
      to a source file. */
  lemma ErrorAnswerIsInformative()
    ensures !IsUninformative(ErrorAnswer)
  {
    ErrorAnswerLacks('v');
    ErrorAnswerLacks('V');
    ErrorAnswerLacks('f');
    ErrorAnswerLacks('F');
    LowerKeepsAbsent(ErrorAnswer, 'v');
    LowerKeepsAbsent(ErrorAnswer, 'f');
    PhrasesHoldRareLetters();
    var e := Lower(ErrorAnswer);
    MissingCharRulesOut(e, Lower(UninformativePhrases[0]), 25);
    MissingCharRulesOut(e, Lower(UninformativePhrases[1]), 5);
    MissingCharRulesOut(e, Lower(UninformativePhrases[2]), 5);
  }
}
