/** `utils/qa.py`: answer generation and page attribution. The chat model, the tokenizer and
    the sentence encoder are not modelled: their results are inputs. */
module Qa {
  import opened Wrappers
  import opened Seqs
  import opened Text
  import opened Ranking
  import opened PdfPreprocessing

  /** The reply returned whenever the completion call raises. */
  const ErrorAnswer := "Unable to generate an answer due to an error."

  /** `get_answer_from_documents`. `completion` is the model's reply to the answer prompt, or
      `None` when the call raised. */
  function GetAnswerFromDocuments(completion: Option<string>): (answer: string)
    ensures completion.None? ==> answer == ErrorAnswer
    // the reply with surrounding whitespace removed, which is all `Strip` can give (`StripUnique`)
    ensures completion.Some? ==> answer == Strip(completion.value)
    ensures completion.Some? ==> (answer == [] <==> AllSpace(completion.value))
    ensures completion.Some? && answer != [] ==> !IsSpace(answer[0]) && !IsSpace(answer[|answer| - 1])
  {
    if completion.None? then ErrorAnswer else Strip(completion.value)
  }

  /** The words dropped from a query before it is matched against pages. */
  const QuestionWords: set<string> := {"what", "where", "when", "who", "why", "how"}

  /** A token is a question word when its lower-case form is one, so "What" and "HOW" are too. */
  predicate IsQuestionWord(token: string) {
    Lower(token) in QuestionWords
  }

  predicate IsContentToken(token: string) {
    !IsQuestionWord(token)
  }

  /** The token filter of `find_page_number`, keeping the order of the remaining tokens. */
  function RemoveQuestionWords(tokens: seq<string>): seq<string> {
    Filter(IsContentToken, tokens)
  }

  /** Exactly the tokens that are not question words remain, and nothing changes when there
      is no question word to drop. */
  lemma RemoveQuestionWordsContract(tokens: seq<string>)
    ensures forall t :: t in RemoveQuestionWords(tokens) <==> t in tokens && !IsQuestionWord(t)
    ensures (forall k :: 0 <= k < |tokens| ==> !IsQuestionWord(tokens[k])) <==> RemoveQuestionWords(tokens) == tokens
  {
    FilterKeepsAll(IsContentToken, tokens);
  }

  /** Removing the question words a second time removes nothing. */
  lemma RemoveQuestionWordsIdempotent(tokens: seq<string>)
    ensures RemoveQuestionWords(RemoveQuestionWords(tokens)) == RemoveQuestionWords(tokens)
  {
    FilterIdempotent(IsContentToken, tokens);
  }

  /** A question word inserted anywhere in a query is dropped without a trace. */
  lemma RemoveQuestionWordsSkips(before: seq<string>, word: string, after: seq<string>)
    requires IsQuestionWord(word)
    ensures RemoveQuestionWords(before + [word] + after) == RemoveQuestionWords(before + after)
  {
    var p := IsContentToken;
    assert Filter(p, [word]) == [] by {
      assert [word][1..] == [];
    }
    calc {
      Filter(p, before + [word] + after);
      { FilterAppend(p, before + [word], after); }
      Filter(p, before + [word]) + Filter(p, after);
      { FilterAppend(p, before, [word]); }
      Filter(p, before) + Filter(p, after);
      { FilterAppend(p, before, after); }
      Filter(p, before + after);
    }
  }

  /** The query text actually encoded: the remaining tokens joined by single spaces. */
  function CleanQuery(tokens: seq<string>): string {
    Join(" ", RemoveQuestionWords(tokens))
  }

  /** When the tokens hold no space, splitting the cleaned query on spaces gives back exactly
      the tokens that were kept. */
  lemma CleanQuerySplits(tokens: seq<string>)
    requires forall k :: 0 <= k < |tokens| ==> ' ' !in tokens[k]
    requires RemoveQuestionWords(tokens) != []
    ensures Split(CleanQuery(tokens), ' ') == RemoveQuestionWords(tokens)
  {
    var kept := RemoveQuestionWords(tokens);
    forall k | 0 <= k < |kept| ensures ' ' !in kept[k] {
      assert kept[k] in tokens;
    }
    SplitJoin(kept, ' ');
  }

  /** The similarity of the cleaned query to each page's text, in page order. */
  function PageScores(query: string, pageTexts: seq<PageText>, similarity: (string, string) -> int): (scores: seq<int>)
    ensures |scores| == |pageTexts|
    ensures forall k :: 0 <= k < |pageTexts| ==> scores[k] == similarity(query, pageTexts[k].text)
  {
    seq(|pageTexts|, k requires 0 <= k < |pageTexts| => similarity(query, pageTexts[k].text))
  }

  /** Page entry `k` is the first one of highest similarity to `query`. */
  ghost predicate BestPage(query: string, pageTexts: seq<PageText>, similarity: (string, string) -> int, k: int) {
    && 0 <= k < |pageTexts|
    && (forall j :: 0 <= j < |pageTexts| ==> similarity(query, pageTexts[j].text) <= similarity(query, pageTexts[k].text))
    && (forall j :: 0 <= j < k ==> similarity(query, pageTexts[j].text) < similarity(query, pageTexts[k].text))
  }

  /** `find_page_number`. `tokens` is the tokenizer's output for the query, `similarity` the
      encoder's cosine similarity on an integer scale, and `encoderLoads` is false when anything in
      the `try` raises before scoring: the word tokenizer, loading the encoder, or encoding. An empty page list fails in `argmax`, so it gives `None` as well. */
  function FindPageNumber(tokens: seq<string>, pageTexts: seq<PageText>, similarity: (string, string) -> int, encoderLoads: bool): (page: Option<int>)
    ensures page.None? <==> !encoderLoads || pageTexts == []
    ensures page.Some? ==> exists k :: BestPage(CleanQuery(tokens), pageTexts, similarity, k) && page.value == pageTexts[k].page
  {
    if !encoderLoads || pageTexts == [] then None
    else
      var scores := PageScores(CleanQuery(tokens), pageTexts, similarity);
      var k := FirstArgMax(scores);
      assert BestPage(CleanQuery(tokens), pageTexts, similarity, k);
      Some(pageTexts[k].page)
  }

  /** Asking with or without question words attributes the same page. */
  lemma FindPageNumberIgnoresQuestionWords(before: seq<string>, word: string, after: seq<string>,
                                           pageTexts: seq<PageText>, similarity: (string, string) -> int, encoderLoads: bool)
    requires IsQuestionWord(word)
    ensures FindPageNumber(before + [word] + after, pageTexts, similarity, encoderLoads)
         == FindPageNumber(before + after, pageTexts, similarity, encoderLoads)
  {
    RemoveQuestionWordsSkips(before, word, after);
  }
}
