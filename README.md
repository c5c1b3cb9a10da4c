# Social Map chatbot: the retrieval pipeline, modelled and proved in Dafny

The Social Map chatbot is a Streamlit page that answers questions about the
listings of the Social Map Berlin. Beneath the page sits a small pipeline,
and this project models it:

- **Normalisation** (`Normalize`). Every listing becomes one corpus text: its
  title, a newline and its German description. A missing key gives `""`.
- **Batched embedding** (`Batching`). `erzeuge_embeddings` sends the texts to
  the embedding service in contiguous slices of `batch_size` (20). It
  appends the returned vectors in order. After each slice it reports the
  progress fraction `min((i + batch_size) / total, 1.0)`.
- **Cache** (`Cache`). `lade_oder_erzeuge_embeddings` returns the stored
  texts, embeddings and timestamp unless a refresh is forced or nothing is
  stored. Otherwise it rebuilds the record, stores it and returns it.
- **Selection** (`Ranking`). `finde_relevante_texte` argsorts the
  similarity scores in ascending order and keeps the last `top_k` (3). It
  reverses them and returns the texts at those indices.
- **Prompt and transcript** (`Chat`). The system prompt is the root prompt,
  a blank line, `Kontextinformationen:`, and one `- <text>` line per
  retrieved text. An answered question appends a user turn and a bot turn
  to the session history.

The external services are function parameters:

- the embedding service, `EmbeddingService`;
- the embedding of the question, `QueryEmbedder`;
- the cosine similarity, `Similarity`;
- the chat completion, `ChatService`.

The embedding services and the chat completion return `None` where the real
call raises. The similarity returns a bare `real`: the model has no case in
which computing it fails. Some properties need
an assumption about the embedding service, the predicate `OneVectorPerInput`:
every call succeeds, and its response holds one vector per input text, in
input order, where each text's vector is a fixed function of that text alone,
whatever batch it is sent in. The
cache files are a field `stored: Option<CacheRecord>` of the class
`EmbeddingCache`. The wall-clock timestamp is an input `now`. The session
history is a field of the class `Session`.

Files: `common.dfy` (optional values, splitting at a newline),
`normalize.dfy`, `batching.dfy`, `cache.dfy`, `ranking.dfy` and `chat.dfy`.

## Model

| member | source | states |
|---|---|---|
| Normalize.Title | prototype_chat_socialmap.py:30 | `eintrag.get("title", "")`: the title when present, `""` when the key is missing |
| Normalize.GermanDescription | prototype_chat_socialmap.py:31 | The `"de"` entry of the description when both are present, `""` when either is missing |
| Normalize.CorpusText | prototype_chat_socialmap.py:30-32 | The text starts with the title, followed by a newline, so every corpus text contains a newline. The missing-key cases are stated in `CorpusTextDefaults` |
| Normalize.NormalizedTexts | prototype_chat_socialmap.py:29-34 | One text per listing, in listing order; text `i` is the corpus text of listing `i` |
| Normalize.CollectTexts | prototype_chat_socialmap.py:24-34 | The loop fills both `texte` and `all_texts` with exactly the normalised texts, in order |
| Normalize.CorpusTextDefaults | prototype_chat_socialmap.py:30-32 | A missing title, a missing description or a missing `"de"` entry each contribute `""`; with both present the text is `title + "\n" + description["de"]` |
| Normalize.CorpusTextSplitsBack | prototype_chat_socialmap.py:30-32 | If the title has no newline, splitting the corpus text at its first newline gives back the title and the German description |
| Batching.BatchEnd | prototype_chat_socialmap.py:40 | The end of `all_texts[i:i+batch_size]`: `i + batch_size` when that fits, and the length when it overruns it |
| Batching.BatchOffsetIsProduct | prototype_chat_socialmap.py:39 | The `k`-th offset of `range(0, total, batch_size)` is `k * batch_size` |
| Batching.Batches | prototype_chat_socialmap.py:39-40 | The slices of `range(0, total, batch_size)`; there are none exactly when there are no texts. The partition and the count are stated in `BatchesPartition`, slice `k` in `BatchesFromAt` |
| Batching.BatchesFromAt | prototype_chat_socialmap.py:39-40 | Slice `k` exists exactly when its offset `k * batch_size` is below the length, and it is `all_texts[k*B : k*B + B]` clamped: the slices are contiguous |
| Batching.BatchesFromPartition | prototype_chat_socialmap.py:39-40 | The slices from any offset concatenate to the texts from that offset on; each has between 1 and `batch_size` texts |
| Batching.BatchesFromCount | prototype_chat_socialmap.py:39 | The number of slices from an offset is the ceiling of the remaining length divided by `batch_size` |
| Batching.BatchesPartition | prototype_chat_socialmap.py:37-44 | The slices concatenate to `all_texts`, each has 1 to `batch_size` texts, their count `c` satisfies `(c-1)*B < n <= c*B`, and there are none exactly when `n = 0` |
| Batching.EmbedBatches | prototype_chat_socialmap.py:39-46 | Sending batches in turn succeeds exactly when no call raises. How the vectors concatenate is stated in `EmbedBatchesAppend` and `EmbedBatchesSnoc` |
| Batching.BatchedEmbeddings | prototype_chat_socialmap.py:37-46 | The matrix of the batch loop exists exactly when no slice's call raises. Its rows are stated in `BatchedEmbeddingsAligned` |
| Batching.EmbedBatchesAppend | prototype_chat_socialmap.py:39-46 | Embedding two runs of batches one after the other is embedding their concatenation; a failure in either part fails the whole |
| Batching.EmbedBatchesSnoc | prototype_chat_socialmap.py:41-46 | One more batch either raises, which fails the whole run, or appends exactly that call's vectors |
| Batching.EmbedBatchesFaithful | prototype_chat_socialmap.py:39-46 | With a one-vector-per-input service, the vectors of any batches are those of their concatenated texts |
| Batching.BatchedEmbeddingsAligned | prototype_chat_socialmap.py:39-51 | With a one-vector-per-input service, the matrix has one row per text and row `j` is the embedding of text `j` |
| Batching.BatchSizeIrrelevant | prototype_chat_socialmap.py:39-51 | With a one-vector-per-input service, the matrix does not depend on `batch_size` |
| Batching.Progress | prototype_chat_socialmap.py:48 | The reported fraction lies in (0, 1] and is 1.0 exactly when the slice reaches the end |
| Batching.ProgressMonotone | prototype_chat_socialmap.py:48 | A later offset never reports a smaller fraction |
| Batching.ReportedFractionsFacts | prototype_chat_socialmap.py:39-48 | The `k`-th reported fraction is `min((k*B + B) / total, 1.0)`; the fractions lie in (0, 1], never go down, and the last is 1.0 once the offsets pass the end |
| Batching.AllFractionsReachOne | prototype_chat_socialmap.py:37-48 | For a non-empty corpus the fractions over all slices end at 1.0 |
| Batching.AppendVectors | prototype_chat_socialmap.py:45-46 | Appending a response's vectors one by one extends the matrix by exactly those vectors, in order |
| Batching.EmbedInBatches | prototype_chat_socialmap.py:36-50 | The loop sends exactly the slices in order and returns their concatenated vectors. It stops at the first call that raises, which has no progress entry. It reports the fractions of `ReportedFractions`, and none (so no division by zero) for an empty corpus |
| Batching.BuildCorpus | prototype_chat_socialmap.py:23-51 | The result exists exactly when the batched matrix does, and then holds the normalised texts, one per listing. Its rows are stated in `BuildCorpusAligned` |
| Batching.GenerateEmbeddings | prototype_chat_socialmap.py:23-51 | `erzeuge_embeddings` returns `BuildCorpus`. On success it has sent every slice and reported one fraction per slice. When a call raises it stops there: that slice is the last one sent, every earlier call succeeded, and the failing slice has no progress entry |
| Batching.BuildCorpusAligned | prototype_chat_socialmap.py:23-51 | With a one-vector-per-input service, the result has one text and one row per listing, row `j` embedding text `j` |
| Cache.Rebuild | prototype_chat_socialmap.py:64-71 | A rebuild succeeds exactly when the batched matrix of the normalised texts (batch size 20) exists, and then carries that matrix |
| Cache.LoadOrBuildSpec | prototype_chat_socialmap.py:57-73 | What is stored after a call is what it returned; a call that returns nothing was a rebuild, and it leaves the store as it was |
| Cache.LoadOrBuildBranches | prototype_chat_socialmap.py:57-73 | Without force and with a stored record, it returns and keeps that record. Otherwise it returns the rebuilt record and stores exactly what it returns. A rebuild that raises leaves the store unchanged |
| Cache.RebuildContents | prototype_chat_socialmap.py:64-73 | A rebuilt record holds the normalised texts, one per listing, and the timestamp of the call |
| Cache.ReloadReturnsStored | prototype_chat_socialmap.py:57-73 | After any call that returned a triple, a later call without force returns that same triple and changes nothing |
| Cache.LoadOrBuildKeepsConsistent | prototype_chat_socialmap.py:57-73 | With a one-vector-per-input service and a consistent stored record, the returned and stored records are consistent: one row per text, each row the embedding of its text |
| Cache.EmbeddingCache.LoadOrBuild | prototype_chat_socialmap.py:53-73 | The returned triple and the new store are those of `LoadOrBuildSpec`. A cache hit sends nothing to the embedding service; a successful rebuild sends all slices of the default batch size |
| Cache.RefreshThenLoad | prototype_chat_socialmap.py:107-111 | After a successful refresh, the next run without the button gets back the same triple and sends nothing to the embedding service |
| Ranking.Insert | prototype_chat_socialmap.py:86 | Inserting an index adds exactly that index and keeps the indices distinct and in ascending score order |
| Ranking.SortIndices | prototype_chat_socialmap.py:86 | The indices below `n`, each exactly once, in ascending score order |
| Ranking.ArgSort | prototype_chat_socialmap.py:86 | The result is an admissible `np.argsort`: a permutation of the indices in ascending score order |
| Ranking.Reverse | prototype_chat_socialmap.py:86 | `[::-1]`: the same length, element `k` is element `n-1-k` of the input |
| Ranking.TextsAt | prototype_chat_socialmap.py:87 | The list comprehension yields `texte[i]` for each selected index, in selection order |
| Ranking.SliceStart | prototype_chat_socialmap.py:86 | Where Python's `a[start:]` starts: a negative `start` keeps the last `min(-start, n)` entries, a non-negative one starts at `min(start, n)` |
| Ranking.SelectTop | prototype_chat_socialmap.py:86 | `[-top_k:][::-1]` keeps `min(top_k, n)` entries for `top_k >= 1` and all `n` for `top_k = 0`, each taken from the order. Ranking is stated in `SelectTopRanked` |
| Ranking.SelectTopShape | prototype_chat_socialmap.py:86 | The selection is the last `n - s` entries of the order read backwards, where `s` is where Python's `[-top_k:]` starts |
| Ranking.SelectTopRanked | prototype_chat_socialmap.py:86 | For any argsort order and any `top_k`, the selected indices are distinct and in range, with non-increasing scores, and every index left out scores at most as much as every index kept |
| Ranking.SelectTopLeftOut | prototype_chat_socialmap.py:86 | An index that is not selected scores at most as much as any selected one |
| Ranking.SelectTopZeroTakesAll | prototype_chat_socialmap.py:86 | For `top_k = 0`, `[-0:]` keeps the whole order, so every index is selected, best first |
| Ranking.FindRelevantTexts | prototype_chat_socialmap.py:75-88 | Nothing when embedding the question raises; a result whenever every row has a text. Each returned text is a corpus text, and `top_k >= 1` returns `min(top_k, n)` of them. Ranking is stated in `FindRelevantTextsRanked` |
| Ranking.FindRelevantTextsRanked | prototype_chat_socialmap.py:75-88 | With one text per row and an embedded question, `top_k >= 1` yields `min(top_k, n)` texts of distinct rows, best first, and no unselected row outranks a selected one |
| Chat.ContextHeader | prototype_chat_socialmap.py:140 | The header is the root prompt followed by exactly `\n\nKontextinformationen:\n` |
| Chat.Bullets | prototype_chat_socialmap.py:141-142 | The context lines have exactly three characters per text more than the texts together, and are empty exactly when no text was retrieved |
| Chat.BulletsConcat | prototype_chat_socialmap.py:141-142 | The lines of two runs of texts are the lines of the first run followed by those of the second |
| Chat.BulletsSplit | prototype_chat_socialmap.py:141-142 | The line `- text\n` of the `k`-th text sits between the lines of the texts before it and those after it |
| Chat.BulletsAppend | prototype_chat_socialmap.py:141-142 | One more retrieved text adds its `- text` line at the end |
| Chat.BuildSystemPrompt | prototype_chat_socialmap.py:140-142 | The prompt loop builds the header followed by one `- info` line per retrieved text, in order |
| Chat.BulletsParseBack | prototype_chat_socialmap.py:140-142 | Retrieved texts without newlines can be read back from the context lines |
| Chat.ContextLinesAmbiguous | prototype_chat_socialmap.py:140-142 | Texts with newlines cannot always be told apart: `["A\n- B"]` and `["A", "B"]` give the same context lines |
| Chat.SystemPromptShape | prototype_chat_socialmap.py:140-142 | The prompt starts with the root prompt and the header. With no retrieved texts it is exactly that. Its length is the root prompt's, plus 24 for the header, plus each text's length plus three |
| Chat.Request | prototype_chat_socialmap.py:144-150 | The request goes to `gpt-4o-mini` with two messages: the system prompt as `system`, then the question as `user` |
| Chat.Retrieve | prototype_chat_socialmap.py:129 | The handler's call `finde_relevante_texte(user_input, texte, embeddings, client)` with the default `top_k = 3`: nothing when embedding the question raises, a result whenever every row has a text, and then at most three texts, `min(3, n)` of them, each a corpus text |
| Chat.SubmitSpec | prototype_chat_socialmap.py:127-154 | The old history is a prefix of the new one, which is either unchanged or longer by a user turn with the non-empty question and a bot turn. The exact cases are stated in `SubmitAppendsPair` |
| Chat.SubmitAppendsPair | prototype_chat_socialmap.py:127-154 | A submit leaves the history unchanged when the input is empty or a call raised. Otherwise it appends exactly `("User", input)` and then `("Bot", answer)` to the old history, where `answer` is the service's reply to the assembled request |
| Chat.AppendPairKeepsWellFormed | prototype_chat_socialmap.py:153-154 | Appending a non-empty question and its answer keeps the history alternating user/bot |
| Chat.SubmitKeepsWellFormed | prototype_chat_socialmap.py:127-154 | A submit keeps the history well formed |
| Chat.ReplayKeepsPrefix | prototype_chat_socialmap.py:122-154 | Over any number of submits the history only grows at its end, by at most two turns per submit, and stays well formed |
| Chat.Session.constructor | prototype_chat_socialmap.py:122-123 | A new session starts with an empty, well-formed history |
| Chat.Session.Submit | prototype_chat_socialmap.py:127-154 | Pressing "Absenden" updates the history as `SubmitSpec` with the root prompt. It sends no request for an empty input. Otherwise it sends the `gpt-4o-mini` request with the assembled system prompt and the question |
| Chat.Session.SubmitUnder | prototype_chat_socialmap.py:127-154 | The same handler for any root prompt; it keeps the history well formed |
| Chat.Session.Answer | prototype_chat_socialmap.py:140-154 | For a non-empty question and the retrieved texts: the request sent is the `gpt-4o-mini` one with the assembled system prompt. When the completion raises the history is unchanged; otherwise it gains exactly `(User, question)` and then `(Bot, answer)`, and stays well formed |

## Left out

- The HTTP fetch of the dataset and its `st.cache_data` memoisation: the listings are an input `items`. A response without an `"items"` key (a `KeyError`) is not modelled.
- Listing fields are strings or absent. A JSON `null` title or a non-object description, which would raise in the normaliser, are not modelled.
- The OpenAI embedding and chat-completion calls are function parameters. The alignment and batch-size properties rest on an assumption (`OneVectorPerInput`), not a fact: every call succeeds, and each text's vector is a fixed function of that text, whatever batch it is sent in. Real embedding calls need not return bit-for-bit the same vector for a text in different batches, and a service whose vectors depend on the batch can give different matrices for different batch sizes. A `None` message content is not modelled.
- Pickle serialisation, file existence checks and reads and writes: the cache is one optional record. A missing or corrupt timestamp file, a corrupt pickle file (which makes `pickle.load` raise at line 59, while the model's cache hit always succeeds), partial writes and concurrent sessions are not modelled.
- Ranking.Scores: the cosine similarity of lines 82-84 (`np.dot`, `np.linalg.norm`) is a parameter `Similarity` over reals, and `Scores` only maps it over the rows; nothing is proved about the cosine itself. Floating-point rounding, NaN for zero vectors and shape errors are not modelled. This includes the shape error for an empty corpus, whose matrix is one-dimensional.
- `np.argsort` uses an unstable sort, so equal scores may come in any order. The lemmas hold for every admissible order (`IsArgSort`); `ArgSort` is one such order, a stable insertion sort.
- Batching.EmbedInBatches: `batch_size` must be at least 1. Python's `range` raises for 0 and loops never for negative values; only the default 20 is used.
- Batching.Progress: Python's float division `(i + batch_size) / total` is modelled as exact division on `real`. Rounding is not modelled. The facts proved (in (0, 1], non-decreasing, 1.0 exactly at the end) also hold for doubles while the counts stay below 2^53.
- The wall-clock timestamp `datetime.now()` is an input `now`; its `strftime` format is not modelled.
- The Streamlit page: layout, buttons, the progress-bar widget (only the fractions it is given are modelled), the success and info messages, and the reversed rendering of the history.
