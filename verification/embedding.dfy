/** `utils/embedding.py`: the sentence-aligned chunker and the entries `create_vector_store`
    adds to the index for each document. Sentence splitting, the embedding model and the
    vector store are not modelled: sentences and embeddings are inputs. */
module Embedding {
  import opened Wrappers
  import opened Seqs
  import opened Text
  import opened DocumentProcessing

  /** The chunker's default word budget. */
  const DefaultMaxTokens := 256

  /** Words in a group of sentences: the sum of the sentences' word counts. */
  function GroupWords(group: seq<string>): nat {
    if group == [] then 0 else GroupWords(group[..|group| - 1]) + WordCount(group[|group| - 1])
  }

  /** A group over the budget holds at most one sentence. */
  ghost predicate OverBudgetIsSingle(groups: seq<seq<string>>, maxTokens: int) {
    forall j :: 0 <= j < |groups| && GroupWords(groups[j]) > maxTokens ==> |groups[j]| <= 1
  }

  /** Every group after the first is non-empty and was closed only because its first
      sentence did not fit after the previous group. */
  ghost predicate GreedyBoundaries(groups: seq<seq<string>>, maxTokens: int) {
    forall j :: 0 < j < |groups| ==>
      groups[j] != [] && GroupWords(groups[j - 1]) + WordCount(groups[j][0]) > maxTokens
  }

  /** The contract of the greedy packing of `sentences` into `groups`. */
  ghost predicate IsGreedyPacking(sentences: seq<string>, maxTokens: int, groups: seq<seq<string>>) {
    && Flatten(groups) == sentences
    && OverBudgetIsSingle(groups, maxTokens)
    && GreedyBoundaries(groups, maxTokens)
    && (groups == [] <==> sentences == [])
    && (groups != [] ==> groups[|groups| - 1] != [])
    && (groups != [] ==> (groups[0] == [] <==> WordCount(sentences[0]) > maxTokens))
  }

  /** The loop state after `i` sentences: the closed groups, the open group and its word count. */
  ghost predicate PackInvariant(
    sentences: seq<string>, maxTokens: int, i: nat, closed: seq<seq<string>>, current: seq<string>, total: int)
  {
    && i <= |sentences|
    && Flatten(closed) + current == sentences[..i]
    && total == GroupWords(current)
    && OverBudgetIsSingle(closed + [current], maxTokens)
    && GreedyBoundaries(closed + [current], maxTokens)
    && (i > 0 ==> current != [])
    && (i == 0 ==> closed == [] && current == [])
    && ((closed != [] && closed[0] == []) <==> (i > 0 && WordCount(sentences[0]) > maxTokens))
  }

  /** The loop of `split_text_to_chunks` over sentence groups, from sentence `i` on. */
  function Pack(
    sentences: seq<string>, maxTokens: int, i: nat, closed: seq<seq<string>>, current: seq<string>, total: int)
    : (groups: seq<seq<string>>)
    requires PackInvariant(sentences, maxTokens, i, closed, current, total)
    ensures IsGreedyPacking(sentences, maxTokens, groups)
    decreases |sentences| - i
  {
    if i == |sentences| then
      PackDone(sentences, maxTokens, closed, current, total);
      if current != [] then closed + [current] else closed
    else
      var s := sentences[i];
      var n := WordCount(s);
      if total + n > maxTokens then
        FlushStep(sentences, maxTokens, i, closed, current, total);
        Pack(sentences, maxTokens, i + 1, closed + [current], [s], n)
      else
        AppendStep(sentences, maxTokens, i, closed, current, total);
        Pack(sentences, maxTokens, i + 1, closed, current + [s], total + n)
  }

  /** When every sentence is placed, the closed groups and the open one (if any) are the packing. */
  lemma PackDone(sentences: seq<string>, maxTokens: int, closed: seq<seq<string>>, current: seq<string>, total: int)
    requires PackInvariant(sentences, maxTokens, |sentences|, closed, current, total)
    ensures IsGreedyPacking(sentences, maxTokens, if current != [] then closed + [current] else closed)
  {
    FlattenSnoc(closed, current);
    assert sentences[..|sentences|] == sentences;
  }

  lemma FlushStep(
    sentences: seq<string>, maxTokens: int, i: nat, closed: seq<seq<string>>, current: seq<string>, total: int)
    requires PackInvariant(sentences, maxTokens, i, closed, current, total)
    requires i < |sentences| && total + WordCount(sentences[i]) > maxTokens
    ensures PackInvariant(sentences, maxTokens, i + 1, closed + [current], [sentences[i]], WordCount(sentences[i]))
  {
    var s := sentences[i];
    var g := closed + [current];
    assert sentences[..i + 1] == sentences[..i] + [s];
    FlattenSnoc(closed, current);
    assert GroupWords([s]) == WordCount(s) by {
      assert [s][..0] == [];
    }
    FlushBudget(g, s, maxTokens);
    FlushBoundary(g, s, maxTokens);
    if i == 0 {
      assert closed == [] && current == [];
    }
  }

  lemma FlushBudget(g: seq<seq<string>>, s: string, maxTokens: int)
    requires OverBudgetIsSingle(g, maxTokens)
    ensures OverBudgetIsSingle(g + [[s]], maxTokens)
  {
    assert forall j :: 0 <= j < |g| ==> (g + [[s]])[j] == g[j];
  }

  lemma FlushBoundary(g: seq<seq<string>>, s: string, maxTokens: int)
    requires GreedyBoundaries(g, maxTokens)
    requires g != [] && GroupWords(g[|g| - 1]) + WordCount(s) > maxTokens
    ensures GreedyBoundaries(g + [[s]], maxTokens)
  {
    var g' := g + [[s]];
    forall j | 0 < j < |g'| ensures g'[j] != [] && GroupWords(g'[j - 1]) + WordCount(g'[j][0]) > maxTokens {
      if j < |g| {
        assert g'[j] == g[j] && g'[j - 1] == g[j - 1];
      }
    }
  }

  lemma AppendStep(
    sentences: seq<string>, maxTokens: int, i: nat, closed: seq<seq<string>>, current: seq<string>, total: int)
    requires PackInvariant(sentences, maxTokens, i, closed, current, total)
    requires i < |sentences| && total + WordCount(sentences[i]) <= maxTokens
    ensures PackInvariant(sentences, maxTokens, i + 1, closed, current + [sentences[i]], total + WordCount(sentences[i]))
  {
    var s := sentences[i];
    assert sentences[..i + 1] == sentences[..i] + [s];
    assert (current + [s])[..|current|] == current;
    var g := closed + [current];
    var g' := closed + [current + [s]];
    forall j | 0 < j < |g'|
      ensures g'[j] != [] && GroupWords(g'[j - 1]) + WordCount(g'[j][0]) > maxTokens
    {
      assert g[j] != [] && GroupWords(g[j - 1]) + WordCount(g[j][0]) > maxTokens;
      if j == |closed| {
        assert g'[j][0] == g[j][0];
      } else {
        assert g'[j] == g[j];
      }
      assert g'[j - 1] == g[j - 1];
    }
    forall j | 0 <= j < |g'| && GroupWords(g'[j]) > maxTokens ensures |g'[j]| <= 1 {
      assert j < |closed|;
      assert g'[j] == g[j];
    }
  }

  /** The sentence groups `split_text_to_chunks` joins into chunks. */
  function SentenceGroups(sentences: seq<string>, maxTokens: int): (groups: seq<seq<string>>)
    ensures IsGreedyPacking(sentences, maxTokens, groups)
  {
    assert sentences[..0] == [];
    Pack(sentences, maxTokens, 0, [], [], 0)
  }

  /** The word count of a group, taken from the front. */
  lemma {:induction false} GroupWordsCons(group: seq<string>)
    requires group != []
    ensures GroupWords(group) == WordCount(group[0]) + GroupWords(group[1..])
  {
    if |group| > 1 {
      var init := group[..|group| - 1];
      GroupWordsCons(init);
      assert init[1..] == group[1..][..|group| - 2];
      assert group[1..][|group| - 2] == group[|group| - 1];
    }
  }

  /** Joining sentences with single spaces keeps every word and adds none. */
  lemma {:induction false} JoinWords(group: seq<string>)
    ensures WordCount(Join(" ", group)) == GroupWords(group)
  {
    if |group| == 1 {
      assert group[..0] == [];
    } else if |group| > 1 {
      JoinWords(group[1..]);
      WordCountSpaced(group[0], Join(" ", group[1..]));
      GroupWordsCons(group);
    }
  }

  /** `split_text_to_chunks` given the sentence tokenizer's output: each group joined by single
      spaces, with exactly the words of its sentences. */
  function SplitTextToChunks(sentences: seq<string>, maxTokens: int): (chunks: seq<string>)
    ensures var groups := SentenceGroups(sentences, maxTokens);
      && |chunks| == |groups|
      && (forall j :: 0 <= j < |chunks| ==> chunks[j] == Join(" ", groups[j]))
      && (forall j :: 0 <= j < |chunks| ==> WordCount(chunks[j]) == GroupWords(groups[j]))
  {
    var groups := SentenceGroups(sentences, maxTokens);
    assert forall j :: 0 <= j < |groups| ==> WordCount(Join(" ", groups[j])) == GroupWords(groups[j]) by {
      forall j | 0 <= j < |groups| ensures WordCount(Join(" ", groups[j])) == GroupWords(groups[j]) {
        JoinWords(groups[j]);
      }
    }
    seq(|groups|, j requires 0 <= j < |groups| => Join(" ", groups[j]))
  }

  /** The properties of the chunker: no sentence lost, duplicated or reordered; a group over
      budget is a single sentence; each group was closed only when the next sentence did not fit;
      an empty leading chunk appears exactly when the first sentence alone is over budget; no
      sentences give no chunks, and the last chunk always holds a sentence. */
  lemma ChunkerContract(sentences: seq<string>, maxTokens: int)
    ensures var groups := SentenceGroups(sentences, maxTokens);
      && Flatten(groups) == sentences
      && (forall j :: 0 <= j < |groups| && GroupWords(groups[j]) > maxTokens ==> |groups[j]| == 1 || (j == 0 && groups[j] == []))
      && (forall j :: 0 <= j < |groups| && WordCount(SplitTextToChunks(sentences, maxTokens)[j]) > maxTokens ==>
            |groups[j]| == 1 || (j == 0 && groups[j] == []))
      && (forall j :: 0 <= j < |groups| - 1 ==> GroupWords(groups[j]) + WordCount(groups[j + 1][0]) > maxTokens)
      && (forall j :: 0 < j < |groups| ==> groups[j] != [])
      && (|SplitTextToChunks(sentences, maxTokens)| == 0 <==> sentences == [])
      && (groups != [] ==> groups[|groups| - 1] != [])
      && (sentences != [] ==> (groups[0] == [] <==> WordCount(sentences[0]) > maxTokens))
  {
    var groups := SentenceGroups(sentences, maxTokens);
    forall j | 0 <= j < |groups| - 1
      ensures GroupWords(groups[j]) + WordCount(groups[j + 1][0]) > maxTokens
    {
      assert groups[(j + 1) - 1] == groups[j];
    }
  }

  /** The metadata stored with each chunk. */
  datatype Metadata = Metadata(fileName: string)

  /** The four parallel lists of one `collection.add` call. */
  datatype Batch<E> = Batch(documents: seq<string>, metadatas: seq<Metadata>, ids: seq<string>, embeddings: seq<E>)

  /** The id `f"{file_name}_chunk_{i}"`. */
  function ChunkId(fileName: string, i: nat): string {
    fileName + "_chunk_" + NatToString(i)
  }

  /** An id determines its file name and ordinal: ids are distinct within a document and
      across documents with different names. */
  lemma ChunkIdInjective(f1: string, i1: nat, f2: string, i2: nat)
    requires ChunkId(f1, i1) == ChunkId(f2, i2)
    ensures f1 == f2 && i1 == i2
  {
    var id := ChunkId(f1, i1);
    var d1, d2 := NatToString(i1), NatToString(i2);
    TrailingDigitsOfId(f1, d1);
    TrailingDigitsOfId(f2, d2);
    assert d1 == id[|id| - |d1|..] == d2;
    NatToStringInjective(i1, i2);
    assert f1 + "_chunk_" == id[..|id| - |d1|] == f2 + "_chunk_";
    assert f1 == (f1 + "_chunk_")[..|f1|];
  }

  /** Length of the longest suffix of `s` made of decimal digits. */
  function TrailingDigits(s: string): nat {
    if s != [] && IsDigit(s[|s| - 1]) then 1 + TrailingDigits(s[..|s| - 1]) else 0
  }

  /** The digits after "_chunk_" are exactly the trailing digits of an id. */
  lemma {:induction false} TrailingDigitsOfId(f: string, d: string)
    requires forall k :: 0 <= k < |d| ==> IsDigit(d[k])
    ensures TrailingDigits(f + "_chunk_" + d) == |d|
  {
    var id := f + "_chunk_" + d;
    if d == [] {
      assert id[|id| - 1] == '_';
    } else {
      var d' := d[..|d| - 1];
      TrailingDigitsOfId(f, d');
      assert id[..|id| - 1] == f + "_chunk_" + d';
    }
  }

  /** The text indexed for a document: native text and OCR text separated by a space. */
  function CombinedText(d: Document): string {
    d.text + " " + d.imagesText
  }

  /** The combined text is whitespace only exactly when both of its parts are. */
  lemma CombinedTextBlank(d: Document)
    ensures AllSpace(CombinedText(d)) <==> AllSpace(d.text) && AllSpace(d.imagesText)
  {
    var combined := CombinedText(d);
    assert forall i :: 0 <= i < |d.text| ==> combined[i] == d.text[i];
    assert forall i :: 0 <= i < |d.imagesText| ==> combined[|d.text| + 1 + i] == d.imagesText[i];
    if AllSpace(d.text) && AllSpace(d.imagesText) {
      forall i | 0 <= i < |combined| ensures IsSpace(combined[i]) {
        if i < |d.text| {
        } else if i > |d.text| {
          assert combined[i] == d.imagesText[i - |d.text| - 1];
        }
      }
    }
  }

  /** Embeds every chunk, or fails if the model fails on any of them. */
  function EmbedAll<E>(chunks: seq<string>, embed: string -> Option<E>): (r: Option<seq<E>>)
    ensures r.Some? <==> forall i :: 0 <= i < |chunks| ==> embed(chunks[i]).Some?
    ensures r.Some? ==> |r.value| == |chunks| && forall i :: 0 <= i < |chunks| ==> r.value[i] == embed(chunks[i]).value
  {
    if chunks == [] then Some([])
    else
      var rest := EmbedAll(chunks[1..], embed);
      if embed(chunks[0]).Some? && rest.Some? then Some([embed(chunks[0]).value] + rest.value)
      else
        assert !embed(chunks[0]).Some? || exists i :: 0 <= i < |chunks[1..]| && !embed(chunks[1..][i]).Some?;
        None
  }

  /** What `create_vector_store` does with one document. */
  datatype Indexing<E> = Skipped | Added(batch: Batch<E>) | Failed

  /** The batch added for a document with the given chunks: chunk `i` under id
      `file_name + "_chunk_" + i` with the document's file name as metadata. */
  ghost predicate IsBatchFor<E>(b: Batch<E>, fileName: string, chunks: seq<string>, embed: string -> Option<E>) {
    && b.documents == chunks
    && |b.metadatas| == |b.ids| == |b.embeddings| == |chunks|
    && (forall i :: 0 <= i < |chunks| ==> b.ids[i] == ChunkId(fileName, i))
    && (forall i :: 0 <= i < |chunks| ==> b.metadatas[i] == Metadata(fileName))
    && (forall i :: 0 <= i < |chunks| ==> embed(chunks[i]) == Some(b.embeddings[i]))
  }

  /** The chunks of a document, given the sentence tokenizer; `None` when the tokenizer raises
      (for instance when its sentence model is not installed). */
  function DocumentChunks(d: Document, sentencize: string -> Option<seq<string>>): (chunks: Option<seq<string>>)
    ensures chunks.None? <==> sentencize(CombinedText(d)).None?
    ensures chunks.Some? ==> chunks.value == SplitTextToChunks(sentencize(CombinedText(d)).value, DefaultMaxTokens)
  {
    match sentencize(CombinedText(d))
    case None => None
    case Some(sentences) => Some(SplitTextToChunks(sentences, DefaultMaxTokens))
  }

  /** The `collection.add` payload for a non-blank document's chunks, or `Failed` when embedding fails. */
  function IndexChunks<E>(fileName: string, chunks: seq<string>, embed: string -> Option<E>): (r: Indexing<E>)
    ensures !r.Skipped?
    ensures r.Failed? <==> exists i :: 0 <= i < |chunks| && embed(chunks[i]).None?
    ensures r.Added? ==> IsBatchFor(r.batch, fileName, chunks, embed)
  {
    match EmbedAll(chunks, embed)
    case None => Failed
    case Some(embeddings) =>
      var ids := seq(|chunks|, i requires 0 <= i < |chunks| => ChunkId(fileName, i));
      var metadatas := seq(|chunks|, i requires 0 <= i < |chunks| => Metadata(fileName));
      Added(Batch(chunks, metadatas, ids, embeddings))
  }

  /** One iteration of `create_vector_store`'s document loop. */
  function IndexDocument<E>(d: Document, sentencize: string -> Option<seq<string>>, embed: string -> Option<E>): (r: Indexing<E>)
    // skipped exactly when both the native text and the OCR text are whitespace only
    ensures r.Skipped? <==> AllSpace(d.text) && AllSpace(d.imagesText)
    // a blank document is never tokenized; otherwise a raising tokenizer fails the document
    ensures !r.Skipped? && sentencize(CombinedText(d)).None? ==> r.Failed?
    ensures !r.Skipped? && sentencize(CombinedText(d)).Some? ==> r == IndexChunks(d.fileName, DocumentChunks(d, sentencize).value, embed)
  {
    CombinedTextBlank(d);
    if Strip(CombinedText(d)) == "" then Skipped
    else
      match DocumentChunks(d, sentencize)
      case None => Failed
      case Some(chunks) => IndexChunks(d.fileName, chunks, embed)
  }

  /** Ids within a batch are pairwise distinct, and no id of one document's batch appears in the
      batch of a document with another file name. */
  lemma BatchIdsDistinct<E>(b1: Batch<E>, f1: string, c1: seq<string>, b2: Batch<E>, f2: string, c2: seq<string>, embed: string -> Option<E>)
    requires IsBatchFor(b1, f1, c1, embed) && IsBatchFor(b2, f2, c2, embed)
    ensures forall i, j :: 0 <= i < j < |b1.ids| ==> b1.ids[i] != b1.ids[j]
    ensures f1 != f2 ==> forall i, j :: 0 <= i < |b1.ids| && 0 <= j < |b2.ids| ==> b1.ids[i] != b2.ids[j]
  {
    forall i, j | 0 <= i < j < |b1.ids| ensures b1.ids[i] != b1.ids[j] {
      if b1.ids[i] == b1.ids[j] {
        ChunkIdInjective(f1, i, f1, j);
      }
    }
    if f1 != f2 {
      forall i, j | 0 <= i < |b1.ids| && 0 <= j < |b2.ids| ensures b1.ids[i] != b2.ids[j] {
        if b1.ids[i] == b2.ids[j] {
          ChunkIdInjective(f1, i, f2, j);
        }
      }
    }
  }

  /** The payload an outcome contributes to the store: its batch when added, nothing otherwise. */
  function AddedPart<E>(o: Indexing<E>): seq<Batch<E>> {
    if o.Added? then [o.batch] else []
  }

  /** The batches of the `Added` outcomes, in order, or `None` as soon as one outcome failed. */
  function AddedBatches<E(!new)>(outcomes: seq<Indexing<E>>): (r: Option<seq<Batch<E>>>)
    ensures r.Some? <==> forall k :: 0 <= k < |outcomes| ==> !outcomes[k].Failed?
    ensures r.Some? ==> r.value == FlatMap(AddedPart, outcomes)
    ensures r.Some? ==> forall b :: b in r.value ==> Added(b) in outcomes
    ensures r.Some? ==> forall k :: 0 <= k < |outcomes| && outcomes[k].Added? ==> outcomes[k].batch in r.value
    ensures r.Some? ==> |r.value| == |outcomes| - Count((o: Indexing<E>) => o.Skipped?, outcomes)
  {
    if outcomes == [] then Some([])
    else
      var rest := AddedBatches(outcomes[1..]);
      assert forall k :: 1 <= k < |outcomes| ==> outcomes[k] == outcomes[1..][k - 1];
      match outcomes[0]
      case Failed => None
      case Skipped => rest
      case Added(b) => if rest.None? then None else Some([b] + rest.value)
  }

  /** The per-document outcomes of the indexing loop, in document order. */
  function Outcomes<E>(documents: seq<Document>, index: Document -> Indexing<E>): (r: seq<Indexing<E>>)
    ensures |r| == |documents|
    ensures forall k :: 0 <= k < |documents| ==> r[k] == index(documents[k])
  {
    if documents == [] then [] else [index(documents[0])] + Outcomes(documents[1..], index)
  }

  /** The indexing of one document, as a function of the document. */
  function IndexWith<E>(sentencize: string -> Option<seq<string>>, embed: string -> Option<E>): Document -> Indexing<E> {
    d => IndexDocument(d, sentencize, embed)
  }

  /** What one document contributes to the store. */
  function StoredPart<E>(sentencize: string -> Option<seq<string>>, embed: string -> Option<E>): Document -> seq<Batch<E>> {
    d => AddedPart(IndexDocument(d, sentencize, embed))
  }

  /** Collecting the added batches of the outcomes is collecting each document's contribution in turn. */
  lemma {:induction false} StoredInDocumentOrder<E>(documents: seq<Document>, sentencize: string -> Option<seq<string>>, embed: string -> Option<E>)
    ensures FlatMap(AddedPart, Outcomes(documents, IndexWith(sentencize, embed))) == FlatMap(StoredPart(sentencize, embed), documents)
  {
    if documents != [] {
      StoredInDocumentOrder(documents[1..], sentencize, embed);
    }
  }

  /** `create_vector_store`: the batches added, in document order, or `None` when a call into
      the embedding model fails (the store is then discarded). */
  function CreateVectorStore<E(!new)>(documents: seq<Document>, sentencize: string -> Option<seq<string>>, embed: string -> Option<E>)
    : (r: Option<seq<Batch<E>>>)
    ensures r.Some? <==> forall k :: 0 <= k < |documents| ==> !IndexDocument(documents[k], sentencize, embed).Failed?
    // exactly the payloads of the added documents, in document order
    ensures r.Some? ==> r.value == FlatMap(StoredPart(sentencize, embed), documents)
    ensures r.Some? ==> forall b :: b in r.value ==>
      exists k :: 0 <= k < |documents| && IndexDocument(documents[k], sentencize, embed) == Added(b)
    // a document with some non-whitespace text whose tokenization raises discards the store
    ensures forall k ::
      && 0 <= k < |documents|
      && (!AllSpace(documents[k].text) || !AllSpace(documents[k].imagesText))
      && sentencize(CombinedText(documents[k])).None?
      ==> r.None?
    // every document with some non-whitespace text has its payload stored
    ensures r.Some? ==> forall k :: 0 <= k < |documents| && (!AllSpace(documents[k].text) || !AllSpace(documents[k].imagesText)) ==>
      && IndexDocument(documents[k], sentencize, embed).Added?
      && IndexDocument(documents[k], sentencize, embed).batch in r.value
  {
    var outcomes := Outcomes(documents, IndexWith(sentencize, embed));
    StoredInDocumentOrder(documents, sentencize, embed);
    AddedBatches(outcomes)
  }
}
