# Retrieval-augmented chat pipeline, modelled in Dafny

This project models the core of a Streamlit chatbot that answers questions
about an uploaded PDF (`chatbot/logic.py`). The pipeline has five parts:

- **Segmenter** (`segmenter.dfy`, module `Segmenter`). `chunk_text` cuts the
  document text into windows of `chunkSize` characters. Window `i` starts at
  `i * (chunkSize - overlap)`. `ChunkText` is the loop as written, and
  `Segments` is its reference definition.
- **Top-k selection** (`retriever.dfy`, module `Retriever`). This is the
  ranking step of `retrieve_chunks`: `np.argsort(similarities)[-top_k:][::-1]`.
  The similarity scores are an input. So is the argsort result, which may be
  any ascending argsort of the scores (`IsArgsort`), because NumPy's default
  sort is not stable.
- **Context assembly** (`assembler.dfy`, module `Assembler`). When chunks are
  loaded, the selected chunks are joined with blank lines. The query sent to
  the model is the raw prompt when that context is empty. Otherwise it is
  `"Context:\n" + context + "\n\nQuestion: " + prompt`.
- **Conversation session** (`conversation.dfy`, class `Conversation.Session`).
  It holds the message history and the loaded chunks as fields.
  `HandleChat` is one turn of `handle_chat`. The hosted model is a function
  parameter from the outbound message list to a reply, or to `None` when the
  call raises.
- **Plain-text export** (`Session.ExportText`). This is the `"txt"` branch of
  `export_chat`: the history rendered as `"Role: content\n\n"` lines.

`wrappers.dfy` holds the `Option` type and `numbers.dfy` the `Min` and `Max` helpers.

Points where the code's behaviour is easy to misread, and which the model
follows as written:

- **Chunk count.** The code emits a window for every cursor position below
  the text length, so the count is `ceil(len / step)`, not
  `ceil((len - overlap) / step)`.
- **A short last chunk.** The 19-character text `"AAAA BBBB CCCC DDDD"` with
  size 9 and overlap 3 gives four chunks:
  `["AAAA BBBB", "BBB CCCC ", "CC DDDD", "D"]`. The last chunk lies entirely
  inside the one before it (`Segmenter.NineThreeExample`).
- **Tie order.** The code uses an unstable argsort and then reverses it, so
  chunks with equal scores come out in no fixed order, and none is modelled.
- **`top_k` of 0 or below.** The code slices with `[-top_k:]`, so a `top_k`
  of 0 keeps every chunk and a negative `top_k` drops the lowest-ranked
  chunks. Both cases are modelled.
- **Unchecked parameters.** The code checks no segmentation parameter.
  `overlap < chunkSize` (which the loop needs to terminate) and
  `chunkSize > 0` are therefore preconditions. A negative overlap is allowed,
  as in the code. It leaves gaps between windows, so coverage and the
  end-of-text property are proved only for `overlap >= 0`.
- **Failed turns.** The raw prompt is appended to the history before
  retrieval and before the model call. When either of them raises, the
  prompt stays in the history and no reply is added.

## Model

| member | source | states |
|---|---|---|
| Segmenter.ChunkText | chatbot/logic.py:20-27 | The loop returns exactly `Segments(text, chunkSize, overlap)`. That is `ceil(len / step)` chunks, and chunk `i` is the window of at most `chunkSize` characters starting at `i * step`. |
| Segmenter.SegmentsShape | chatbot/logic.py:22-26 | The reference segmentation has `ceil(len / step)` windows. Window `i` starts at offset `Offset(i, step)`, which lies inside the text, and is clamped to the text's end. |
| Segmenter.OffsetIsProduct | chatbot/logic.py:22-26 | After `i` advances the cursor stands at `i * step`. |
| Segmenter.SegmentCount | chatbot/logic.py:21-26 | The chunk count is `ceil(len(text) / step)`. There are no chunks exactly when the text is empty. |
| Segmenter.SegmentAt | chatbot/logic.py:23-25 | Chunk `i` starts inside the text and equals `text[i*step .. min(i*step + chunkSize, len)]`. |
| Segmenter.SegmentBounds | chatbot/logic.py:23-25 | Every chunk is non-empty and at most `chunkSize` characters long. |
| Segmenter.LastSegmentReachesEnd | chatbot/logic.py:23-26 | For `0 <= overlap`, the last chunk of a non-empty text runs to the end of the text. |
| Segmenter.Coverage | chatbot/logic.py:23-26 | For `0 <= overlap`, every character of the text lies in some chunk, at offset `j - i*step` of chunk `i`. |
| Segmenter.ConsecutiveOverlap | chatbot/logic.py:24-26 | For `0 <= overlap`, the part of chunk `i` after its first `step` characters is the start of chunk `i + 1`. The shared part is at most `overlap` long, and exactly `overlap` when chunk `i` is full. |
| Segmenter.NineThreeExample | chatbot/logic.py:20-27 | The 19-character example with size 9 and overlap 3 gives four chunks, the last being `"D"`. |
| Retriever.TopIndices | chatbot/logic.py:34 | The slice keeps `min(top_k, n)` indices for `top_k >= 1`, all `n` for `top_k == 0`, and `max(0, n + top_k)` for a negative `top_k`. The kept indices are valid and distinct, in non-increasing score order. |
| Retriever.TopIndicesDominate | chatbot/logic.py:34 | No left-out index scores higher than any kept index. With `top_k == 0` or `top_k >= n`, every index is kept. |
| Retriever.RetrieveChunks | chatbot/logic.py:34-35 | The result is the chunks at the selected indices, best first. Every result is one of the input chunks. |
| Assembler.JoinSnoc | chatbot/logic.py:59 | Joining one more part appends the separator and that part, so the join keeps the parts' order. |
| Assembler.JoinLength | chatbot/logic.py:59 | The join holds all parts plus one separator between each pair of neighbours. |
| Assembler.JoinEmpty | chatbot/logic.py:59 | With a non-empty separator the join is empty if and only if the parts are `[]` or `[""]`. |
| Assembler.Context | chatbot/logic.py:56-59 | Without loaded chunks the context is empty. With chunks loaded it is built from 1 to 3 retrieved chunks: their total length plus one two-character separator between each pair. |
| Assembler.UserQuery | chatbot/logic.py:62 | An empty context gives the prompt verbatim. Otherwise the query is the header, then the context, then the question header, then the prompt, each readable back at a fixed place. |
| Assembler.ContextEmptyIff | chatbot/logic.py:56-59 | The context is empty if and only if no chunks are in the session, the chunk list is empty, or retrieval returned a single empty chunk. |
| Assembler.NoDocumentQuery | chatbot/logic.py:56-62 | With no chunks loaded, or an empty chunk list, the query equals the prompt. |
| Assembler.RetrievedQuery | chatbot/logic.py:57-62 | With non-empty chunks loaded, retrieval gives 1 to 3 chunks. The query is exactly `"Context:\n" + join("\n\n", retrieved) + "\n\nQuestion: " + prompt`, in retrieval order. |
| Assembler.DocumentQuery | chatbot/logic.py:57-62 | A non-empty document segmented by `chunk_text` always puts a context block before the prompt. |
| Conversation.Outbound | chatbot/logic.py:64-68 | The outbound list is the system instruction, then the given history unchanged, then the query as a user message. |
| Conversation.TurnOutbound | chatbot/logic.py:51-67 | In a turn the outbound list is the pre-turn history length + 3. It carries the history, the raw prompt, then the augmented query. |
| Conversation.Session.constructor | chatbot/logic.py:39-40 | A session starts with an empty history and no chunks. |
| Conversation.Session.HandleChat | chatbot/logic.py:50-71 | With no prompt nothing changes. When chunks are loaded and retrieval raises, the history gains only the raw prompt and the model is not called. Otherwise the model receives `Outbound(history + [user prompt], query)`. On a reply the history gains exactly the raw prompt and the reply. On a failed call it gains only the raw prompt. Earlier messages and the loaded chunks are unchanged. |
| Conversation.Session.ExportText | chatbot/logic.py:77-85 | An empty history exports nothing (None). Otherwise the export is `Transcript(messages)`, one `"Role: content\n\n"` line per message in order. |
| Conversation.TranscriptSnoc | chatbot/logic.py:83-84 | Exporting one more message appends its line. |
| Conversation.TranscriptConcat | chatbot/logic.py:82-84 | The export of two histories joined is the concatenation of their exports. |
| Conversation.TranscriptAfterTurn | chatbot/logic.py:82-84 | A completed turn adds exactly `"User: <prompt>\n\n"` and `"Assistant: <reply>\n\n"` to the export, never the augmented query. |
| Conversation.CapitalizeLowerWord | chatbot/logic.py:84 | `capitalize` of a lower-case word upper-cases only its first letter. |
| Conversation.LabelIsCapitalizedName | chatbot/logic.py:84 | The export label of each role is its stored name capitalized: "System", "User", "Assistant". |

## Left out

- `read_pdf` (chatbot/logic.py:13-18): text extraction through PyPDF2, a foreign library.
- TF-IDF vectorisation and cosine similarity (chatbot/logic.py:30-33). These are floating-point work inside scikit-learn. The scores are an integer input sequence instead.
- Conversation.Session.HandleChat: the model does not compute whether `TfidfVectorizer().fit` raises (chatbot/logic.py:30). It is fitted on the chunks together with the prompt, so it raises only when neither holds a word of two or more word characters. An example is the `"\n"` that `read_pdf` gives for a page without extractable text, together with the prompt `"?"`. The caller passes `scores == None` for that case. `HandleChat` then records the prompt and returns `RetrievalFailed` without calling the endpoint.
- The argsort algorithm itself: its result is an input constrained by `IsArgsort`, so NumPy's tie order is left open.
- Retriever.RetrieveChunks: on an empty chunk list it returns `[]`. scikit-learn would probably raise there. `handle_chat` never calls it that way.
- The `client.chat_completion` network call and `response.choices[0].message["content"]` (chatbot/logic.py:64-69). They are the `endpoint` parameter: a reply, or `None` when the call raises. `chatbot/config.py` (the token check and client set-up) is not part of this model.
- Streamlit rendering and input: the history display (chatbot/logic.py:42-47), `st.chat_message`, `st.spinner` and the empty-history `st.warning` (line 78). `st.chat_input` becomes the `input` parameter.
- The `"pdf"` branch of `export_chat` (chatbot/logic.py:87-104), which draws with reportlab, and the format dispatch. Any other format value returns None in the code.
- Session.ExportText: returns the text instead of its UTF-8 bytes (chatbot/logic.py:85).
- Conversation.Capitalize covers ASCII letters only, while Python's `str.capitalize` is Unicode-aware. The roles are ASCII words.
- Segmenter.ChunkText: requires `chunkSize > 0`, and the application always passes 800 and 100. In the code a size of 0 gives one empty chunk per cursor position (`chunk_text("abc", 0, -1) == ["", "", ""]`). A negative size puts each slice end before its start. For the first windows that end is negative and Python counts it from the end of the text; after that the chunks are empty (`chunk_text("abc", -1, -3) == ["ab", ""]`).
- `chatbot/ui.py`: page layout, upload widgets and the assignment `st.session_state.pdf_chunks = chunk_text(...)`. Callers of the model set `Session.pdfChunks` directly.
