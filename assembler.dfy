/**
 * Context assembly in `handle_chat`: when a document's chunks are loaded and
 * non-empty, the chunks `retrieve_chunks` selects are joined with blank lines
 * into a context block; the query sent to the model is the raw prompt when
 * that block is empty, and otherwise the block and the prompt framed as
 * "Context:\n<block>\n\nQuestion: <prompt>".
 */
module Assembler {
  import opened Wrappers
  import opened Retriever
  import Segmenter

  const SEPARATOR := "\n\n"
  const CONTEXT_HEADER := "Context:\n"
  const QUESTION_HEADER := "\n\nQuestion: "

  /** Python's `sep.join(parts)`. */
  function Join(sep: string, parts: seq<string>): string
  {
    if |parts| == 0 then ""
    else if |parts| == 1 then parts[0]
    else parts[0] + sep + Join(sep, parts[1..])
  }

  function TotalLength(parts: seq<string>): nat
  {
    if parts == [] then 0 else |parts[0]| + TotalLength(parts[1..])
  }

  /** Joining one more part appends the separator and that part. */
  lemma {:induction false} JoinSnoc(sep: string, parts: seq<string>, p: string)
    ensures Join(sep, parts + [p]) == if parts == [] then p else Join(sep, parts) + sep + p
  {
    if |parts| >= 2 {
      JoinSnoc(sep, parts[1..], p);
      assert (parts + [p])[1..] == parts[1..] + [p];
    } else if |parts| == 1 {
      assert parts + [p] == [parts[0], p];
      assert [parts[0], p][1..] == [p];
    }
  }

  /** The joined text holds every part and one separator between neighbours. */
  lemma {:induction false} JoinLength(sep: string, parts: seq<string>)
    requires parts != []
    ensures |Join(sep, parts)| == TotalLength(parts) + (|parts| - 1) * |sep|
  {
    if |parts| >= 2 {
      JoinLength(sep, parts[1..]);
    }
  }

  /** With a non-empty separator the join is empty only for `[]` and `[""]`. */
  lemma JoinEmpty(sep: string, parts: seq<string>)
    requires sep != ""
    ensures Join(sep, parts) == "" <==> parts == [] || parts == [""]
  {
    if |parts| >= 2 {
      JoinLength(sep, parts);
    }
  }

  /** Line 57: chunks are in the session state and the list is not empty. */
  predicate Loaded(pdfChunks: Option<seq<string>>)
  {
    pdfChunks.Some? && pdfChunks.value != []
  }

  /**
   * Lines 56-59: the context block, empty when no chunks are loaded. With
   * chunks loaded it is made of the one to three retrieved chunks and a
   * blank line between each two of them.
   */
  function Context(pdfChunks: Option<seq<string>>, scores: seq<int>, order: seq<nat>): (c: string)
    requires Loaded(pdfChunks) ==> |scores| == |pdfChunks.value| && IsArgsort(scores, order)
    ensures !Loaded(pdfChunks) ==> c == ""
    ensures Loaded(pdfChunks) ==>
      var r := RetrieveChunks(pdfChunks.value, scores, order, DEFAULT_TOP_K);
      1 <= |r| <= DEFAULT_TOP_K
      && |c| == TotalLength(r) + (|r| - 1) * |SEPARATOR|
  {
    if Loaded(pdfChunks) then
      var r := RetrieveChunks(pdfChunks.value, scores, order, DEFAULT_TOP_K);
      JoinLength(SEPARATOR, r);
      Join(SEPARATOR, r)
    else ""
  }

  /**
   * Line 62: the query sent to the model. An empty context leaves the prompt
   * as it is; otherwise the context and the prompt can both be read back out
   * of the query at fixed places.
   */
  function UserQuery(prompt: string, context: string): (q: string)
    ensures context == "" ==> q == prompt
    ensures context != "" ==>
      |q| == |CONTEXT_HEADER| + |context| + |QUESTION_HEADER| + |prompt|
      && q[..|CONTEXT_HEADER|] == CONTEXT_HEADER
      && q[|CONTEXT_HEADER|..|CONTEXT_HEADER| + |context|] == context
      && q[|CONTEXT_HEADER| + |context|..|q| - |prompt|] == QUESTION_HEADER
      && q[|q| - |prompt|..] == prompt
  {
    if context == "" then prompt
    else CONTEXT_HEADER + context + QUESTION_HEADER + prompt
  }

  /**
   * The context block is empty exactly when no chunks are loaded, the chunk
   * list is empty, or retrieval returned a single empty chunk.
   */
  lemma ContextEmptyIff(pdfChunks: Option<seq<string>>, scores: seq<int>, order: seq<nat>)
    requires Loaded(pdfChunks) ==> |scores| == |pdfChunks.value| && IsArgsort(scores, order)
    ensures Context(pdfChunks, scores, order) == "" <==>
      pdfChunks.None? || pdfChunks.value == []
      || RetrieveChunks(pdfChunks.value, scores, order, DEFAULT_TOP_K) == [""]
  {
    if pdfChunks.Some? && pdfChunks.value != [] {
      JoinEmpty(SEPARATOR, RetrieveChunks(pdfChunks.value, scores, order, DEFAULT_TOP_K));
    }
  }

  /** Without a loaded document the query is the prompt, verbatim. */
  lemma NoDocumentQuery(prompt: string, pdfChunks: Option<seq<string>>, scores: seq<int>, order: seq<nat>)
    requires pdfChunks == None || pdfChunks == Some([])
    ensures UserQuery(prompt, Context(pdfChunks, scores, order)) == prompt
  {
  }

  /**
   * When the loaded chunks are all non-empty, the query is the retrieved
   * chunks, best first and at most three of them, joined by blank lines and
   * followed by the prompt.
   */
  lemma RetrievedQuery(prompt: string, chunks: seq<string>, scores: seq<int>, order: seq<nat>)
    requires |scores| == |chunks| && IsArgsort(scores, order)
    requires chunks != [] && forall c :: c in chunks ==> c != ""
    ensures var r := RetrieveChunks(chunks, scores, order, DEFAULT_TOP_K);
      1 <= |r| <= DEFAULT_TOP_K
      && UserQuery(prompt, Context(Some(chunks), scores, order))
         == CONTEXT_HEADER + Join(SEPARATOR, r) + QUESTION_HEADER + prompt
  {
    var r := RetrieveChunks(chunks, scores, order, DEFAULT_TOP_K);
    assert r[0] in chunks;
    JoinEmpty(SEPARATOR, r);
  }

  /**
   * A document segmented by `chunk_text` never yields an empty chunk, so a
   * non-empty document always puts a context block in front of the prompt.
   */
  lemma DocumentQuery(prompt: string, text: string, chunkSize: int, overlap: int,
                      scores: seq<int>, order: seq<nat>)
    requires 0 < chunkSize && overlap < chunkSize && text != ""
    requires |scores| == |Segmenter.Segments(text, chunkSize, overlap)|
    requires IsArgsort(scores, order)
    ensures var chunks := Segmenter.Segments(text, chunkSize, overlap);
      UserQuery(prompt, Context(Some(chunks), scores, order))
      == CONTEXT_HEADER + Join(SEPARATOR, RetrieveChunks(chunks, scores, order, DEFAULT_TOP_K))
         + QUESTION_HEADER + prompt
  {
    var chunks := Segmenter.Segments(text, chunkSize, overlap);
    Segmenter.SegmentCount(text, chunkSize, overlap);
    Segmenter.SegmentBounds(text, chunkSize, overlap);
    RetrievedQuery(prompt, chunks, scores, order);
  }
}
