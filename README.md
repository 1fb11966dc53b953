# rag-chat-bot retrieval core, modelled in Dafny

The rag-chat-bot server keeps up to five uploaded documents in memory. It
splits each document's text into overlapping windows of 1000 characters
("chunks"). It answers a chat query by handing the most relevant chunks to
a language model. Relevance is lexical:
- the query is lower-cased and split on whitespace;
- words of three or more characters are kept;
- a chunk scores one point for every query word that occurs in its
  lower-cased text.

A query may name files with `@name` tokens. The named documents are then
the only ones considered. When two or more files are named and more than one
file name survives, each file contributes its best `min(per, its chunks)`
chunks, where `per = max(3, ceil(topK / files))`. There is then no global cap.

The project models this core in Dafny, one module per concern:

- `Wrappers`: `Option` and `Result`.
- `Text`: the JavaScript string operations the core relies on.
  - `toLowerCase`, restricted to ASCII.
  - `includes`, with the empty needle contained everywhere.
  - `trim`, and `split(/\s+/)`, both over exactly the character set of `\s`.
- `Chunker`: `splitIntoChunks`, as the loop itself and as a reference function over windows.
- `Mentions`: `parseFileMentions`.
  - The `exec` loop over `/@([^\s@]+)/g`.
  - A position-by-position reference reading of the same tokens.
  - The `replace` that deletes the tokens before `trim`.
- `Matcher`: `docMatchesMentions`, the four-way substring test on the
  lower-cased name, its base name, and both with `_`/`-` removed.
- `Ranking`: the comparator sort `(a, b) => b.score - a.score`, which
  JavaScript performs stably.
  - It is modelled as a stable insertion sort.
  - The model has it both as a function on sequences and as an in-place
    method on an `array`.
- `Retrieval`: `retrieveRelevantChunks`.
  - The scoring loops.
  - The `Map` from file name to scored chunks, as an insertion-ordered
    association list where `set` keeps an existing key's position.
  - The two selection modes.
  - `cleanQuery || query`.
- `Store`: the in-memory `documentStore` as a class with `documents` and
  `chatHistory` fields. Its methods are the route handlers: list, delete,
  single upload, batch upload, chat, history.

Each loop of the source is a method proved against a specification
function (`SplitIntoChunks`, `ParseFileMentions`, `ScoreChunk`,
`ScoreDocument`, `GroupDocuments`, `PickPerFile`, `PoolAll`,
`SortInPlace`/`InsertInPlace`, `FindDocument`, `UploadMany`). The
properties of the core are lemmas about those functions.

Two properties of the code are worth stating outright:

- **The chunker drops nothing.** The break fires only when the window just
  emitted reached the end of the text (`ChunkCount`), and
  `ChunksReassemble` proves that the chunks, minus their shared overlaps,
  give back the whole text.
- **The five-document limit** holds only for the single-file upload.
  `BatchBypassesLimit` shows that the batch route grows a full store.

## Model

| member | source | states |
|---|---|---|
| Text.Lower | backend/src/index.js:125 | lower-casing keeps the length and folds each character on its own (ASCII letters only) |
| Text.ContainsIff | backend/src/index.js:154 | `includes` holds exactly when the needle occurs at some position of the hay |
| Text.TrimSlice | backend/src/index.js:99 | `trim` returns the slice between the first and the last non-whitespace character; everything cut off is whitespace and the result starts and ends with non-whitespace |
| Text.TrimIdempotent | backend/src/index.js:99 | trimming twice is trimming once |
| Text.WordsPartition | backend/src/index.js:125 | the non-empty pieces of `split(/\s+/)` are whitespace-free and concatenate to the input with its whitespace deleted; they are maximal: every whitespace character splits the input into the words before it and the words after it, and a non-empty whitespace-free string is one word |
| Chunker.SplitIntoChunks | backend/src/index.js:74-86 | the loop emits exactly the reference windows `Chunks(text, chunkSize, overlap)` |
| Chunker.ChunkAt | backend/src/index.js:78-81 | chunk `k` is the window of `text` from `k * (chunkSize - overlap)` to `min(that + chunkSize, length)`, non-empty and at most `chunkSize` long |
| Chunker.ChunkCount | backend/src/index.js:78-83 | empty text gives no chunks; text of at most `chunkSize` gives itself; otherwise the last window reaches the end of the text and the one before does not |
| Chunker.ChunkOverlap | backend/src/index.js:79-81 | every chunk but the last is a full window whose last `overlap` characters are the first `overlap` of the next |
| Chunker.ChunksReassemble | backend/src/index.js:74-86 | dropping the shared overlap between neighbours and concatenating the chunks gives back the whole text |
| Mentions.NameEnd | backend/src/index.js:90 | `[^\s@]+` consumes the maximal run of name characters |
| Mentions.ParseFileMentions | backend/src/index.js:89-104 | the `exec` loop returns the reference token list, lower-cased, and the cleaned query is the trimmed removal |
| Mentions.MatchesAreMentions | backend/src/index.js:90-96 | the left-to-right global match finds one token at every `@` followed by a name character, in order, and no others |
| Mentions.RemovedHasNoMention | backend/src/index.js:99 | deleting every `@name` token never creates a new one |
| Mentions.CleanQueryHasNoMention | backend/src/index.js:99 | the cleaned query contains no `@name` token |
| Mentions.ParseCleanQueryAgain | backend/src/index.js:89-104 | parsing the cleaned query again finds no mentions and leaves it unchanged |
| Mentions.QueryWithoutMentions | backend/src/index.js:89-104 | a query without tokens yields no mentions and is only trimmed |
| Mentions.ExampleTwoMentions | backend/src/index.js:89-104 | "@a @b hi" yields ["a", "b"] and "hi" |
| Mentions.ExampleNoMentions | backend/src/index.js:89-104 | "hi all" yields no mentions and is returned unchanged |
| Matcher.BaseName | backend/src/index.js:109 | `replace(/\.[^.]+$/, '')` cuts a trailing dot-extension of one or more non-dots, and otherwise leaves the name whole |
| Matcher.StripSeparatorsSplit | backend/src/index.js:113-114 | `replace(/[_-]/g, '')` distributes over every split of its input and keeps a single character exactly when it is not `_` or `-`, so it deletes the separators and keeps everything else in order |
| Matcher.DocMatchesMentions | backend/src/index.js:107-121 | a name matches exactly when some target passes one of the four substring tests |
| Matcher.NoTargetsNoMatch | backend/src/index.js:111 | `some` over no targets is false |
| Matcher.MatchesWhenNameContains | backend/src/index.js:116 | a target contained in the lower-cased name always matches |
| Matcher.MatchMonotone | backend/src/index.js:111 | adding targets never loses a match |
| Matcher.EmptyBaseMatchesAll | backend/src/index.js:117 | a name whose base is empty (".pdf") matches any non-empty target list |
| Matcher.ExampleReportMatches | backend/src/index.js:107-121 | "Q3_Report.pdf" matches "report" |
| Matcher.ExampleNotesDoesNotMatch | backend/src/index.js:107-121 | "notes.txt" does not match "report" |
| Ranking.SortInPlace | backend/src/index.js:192 | sorting the array in place leaves exactly `SortByScore` of its old contents |
| Ranking.InsertInPlace | backend/src/index.js:192 | one insertion pass sorts `a[..i+1]` by `Insert` and leaves the rest alone |
| Ranking.ShiftedIsInsert | backend/src/index.js:192 | shifting the lower-scored suffix up one place and writing the element at the gap is `Insert` |
| Ranking.InsertSplit | backend/src/index.js:192 | `Insert` places the element after every element scoring at least as much and before the strictly lower-scored tail |
| Ranking.SortByScoreSorted | backend/src/index.js:178 | the sort is non-increasing by score |
| Ranking.SortByScorePermutes | backend/src/index.js:178 | the sort is a permutation of its input |
| Ranking.SortByScoreStable | backend/src/index.js:178 | the chunks of each score keep their input order (stability) |
| Ranking.SortByScoreKeepsCount | backend/src/index.js:178 | the sort keeps, for any property, how many chunks have it |
| Ranking.StableSortUnique | backend/src/index.js:178 | any non-increasing sequence with the same per-score order as the input is `SortByScore` of it, so the model is the sort JavaScript performs |
| Ranking.Take | backend/src/index.js:193 | `slice(0, n)` is the prefix of length `min(n, length)` |
| Ranking.FilterTake | backend/src/index.js:193 | filtering a prefix gives a prefix of the filtered sequence |
| Retrieval.LongWordsSplit | backend/src/index.js:125 | `filter(w => w.length > 2)` distributes over every split of the word list and keeps a single word exactly when it is longer than two characters, so it keeps order and duplicates |
| Retrieval.LongWordsMember | backend/src/index.js:125 | a word is in the filtered list exactly when it is in the input and longer than two characters |
| Retrieval.QueryWordsShape | backend/src/index.js:125 | every query word is longer than two characters and contains no whitespace |
| Retrieval.ScoreChunk | backend/src/index.js:150-157 | the counting loop computes `MatchCount` of the query words in the lower-cased chunk |
| Retrieval.MatchCount | backend/src/index.js:150-157 | a score never exceeds the number of query words |
| Retrieval.MatchCountExtremes | backend/src/index.js:153-156 | the score is maximal exactly when every word occurs, and 0 exactly when none does |
| Retrieval.DuplicateCountsTwice | backend/src/index.js:153-156 | a repeated query word found in the chunk counts twice |
| Retrieval.ScoreDocument | backend/src/index.js:146-165 | entry `i` carries chunk `i`, its score, the document's name and the index `i` |
| Retrieval.MapSet | backend/src/index.js:167 | `Map.set` keeps keys distinct, keeps every key's position, adds a new key at the end, stores the value, and changes no other entry |
| Retrieval.GroupDocuments | backend/src/index.js:135-168 | the loop over the documents builds exactly the reference map `Group` |
| Retrieval.GroupEntries | backend/src/index.js:135-168 | each entry holds the scored chunks of the last retained document with that name (a later document with the same name replaces an earlier one's chunks) |
| Retrieval.GroupKeys | backend/src/index.js:137-142 | every retained document's name has an entry |
| Retrieval.GroupTagged | backend/src/index.js:159-164 | every chunk in an entry carries that entry's file name |
| Retrieval.PerDocQuota | backend/src/index.js:175 | the quota is at least 3 and at least `topK / n` rounded up, and it is the least such value when above 3 |
| Retrieval.PickPerFile | backend/src/index.js:177-180 | balanced mode concatenates each entry's sorted top `per` in map order |
| Retrieval.PoolAll | backend/src/index.js:188-191 | standard mode concatenates every entry in map order |
| Retrieval.SortedCopy | backend/src/index.js:183 | sorting through an array gives `SortByScore` |
| Retrieval.RetrieveRelevantChunks | backend/src/index.js:124-199 | the procedure returns the reference `Retrieve` for the documents, query, `topK` and targets |
| Retrieval.RetrieveSorted | backend/src/index.js:183-193 | in both modes the result is non-increasing by score |
| Retrieval.RetrieveProvenance | backend/src/index.js:135-168 | every returned entry is chunk `index` of the last stored document with its name; that document is retained by the targets; its score is the query-word count of the chunk and at most the number of query words |
| Retrieval.RetrieveSingle | backend/src/index.js:186-194 | standard mode returns `min(topK, total)` chunks; what it leaves out scores no higher than what it keeps; equal scores keep pool order |
| Retrieval.TopK | backend/src/index.js:192-193 | sorting then slicing keeps a multiset split of the pool, kept scores at least left-out scores, and a prefix of each score's chunks |
| Retrieval.RetrieveMulti | backend/src/index.js:173-185 | balanced mode returns a permutation of the per-file selections, stable per score, with `min(per, chunks)` chunks of each file and, when every file has `per` chunks, `per * files >= topK` chunks in total (no global cap) |
| Retrieval.EffectiveQueryCases | backend/src/index.js:331 | the scored query is the raw query when cleaning leaves nothing, and otherwise the cleaned query, which has no tokens |
| Retrieval.ExampleMentionOnlyQuery | backend/src/index.js:331 | "@cv" alone cleans to "" and is scored with the query word "@cv" |
| Store.FindIndex | backend/src/index.js:224 | `findIndex` returns the first position with that id, or -1 when there is none |
| Store.FindDocument | backend/src/index.js:224 | the search loop returns `FindIndex` |
| Store.RemoveAt | backend/src/index.js:230 | `splice(i, 1)` removes exactly the element at `i` and keeps the others in order |
| Store.StoredDocumentsShape | backend/src/index.js:280-305 | a batch adds the documents of its first `j` files followed by those of the rest, a single file adds exactly its own chunked document when its text was extracted and nothing otherwise, and the count is the number of extractable files |
| Store.BatchBypassesLimit | backend/src/index.js:272-312 | a full store still grows when a batch has an extractable file |
| Store.RecordAppends | backend/src/index.js:358-366 | recording appends the user and assistant turns to that session only; an empty session id records nothing |
| Store.RecordKeepsAlternating | backend/src/index.js:358-366 | every session's history stays an alternation of user and assistant turns |
| Store.Sources | backend/src/index.js:370 | the sources are the file names of the returned chunks, in order |
| Store.DocumentStore.constructor | backend/src/index.js:24-27 | the store starts with no documents and no history |
| Store.DocumentStore.Listing | backend/src/index.js:212-219 | one entry per document, in order, with id, name and chunk count |
| Store.DocumentStore.UploadOne | backend/src/index.js:235-269 | no file, then a full store, then a failed extraction are refused without change; a present, extractable file on a store below five documents is accepted, the chunked document appended and its receipt returned |
| Store.DocumentStore.UploadMany | backend/src/index.js:272-312 | an empty batch is refused; otherwise every file is reported in order and each extractable one appended, with no capacity check |
| Store.DocumentStore.Delete | backend/src/index.js:222-234 | an unknown id is refused without change; otherwise the first document with that id is removed and its name returned |
| Store.DocumentStore.RecordTurn | backend/src/index.js:358-366 | the history becomes `Record` of the old one and nothing else changes |
| Store.DocumentStore.GetHistory | backend/src/index.js:454-458 | an unknown session has the empty history, and every history alternates |
| Store.DocumentStore.Chat | backend/src/index.js:315-376 | an empty query, then an empty store, are refused; a non-empty query on a non-empty store succeeds, leaves the documents unchanged, returns as chunks `Retrieve` of the effective query with `topK` 5 and the parsed mentions, and records the turn |

## Left out

- The HTTP layer is not modelled: Express routing, CORS, JSON bodies,
  status codes, the health route (`/api/health`, which only reports the
  document count) and the `maxDocuments` field of the listing. Failures are
  the `Result` values the handlers would turn into responses.
- The multer limits are not modelled: the 10 MB file size, the MIME
  filter, and the 10-file cap on the batch route. Those checks run before
  the handlers. An upload is either absent or present.
- `extractText` (pdf-parse, UTF-8 decoding) is not modelled. An upload
  carries its extracted text, or `None` when extraction threw.
- The language-model call and prompt templating are left out. The model's
  answer is a parameter of `Store.DocumentStore.Chat`.
- The streaming chat route (lines 379-451) differs from the plain route only
  in transport (server-sent events) and is modelled by the same `Chat`.
- A failing language-model call is not modelled. In the source it throws
  after retrieval, the route answers with an error and the history is left
  unchanged. `Chat` always succeeds past its two checks and records the turn.
- Document ids come from `Date.now()` and are parameters (`id`, `ids`).
- Console logging is left out.
- Text.Lower: folds only the ASCII letters. JavaScript's full Unicode
  `toLowerCase`, which can also change a string's length, is not modelled.
- Text.ContainsIff: lengths and positions count Dafny characters, not UTF-16 code units.
- Chunker.SplitIntoChunks: its window boundaries count Dafny characters. The
  source counts UTF-16 code units and can split a surrogate pair.
- LongWordsSplit: the `w.length > 2` test counts Dafny characters, not UTF-16 code units.
- Chunker.SplitIntoChunks: requires `overlap < chunkSize`. The source does
  not check this. With a non-positive step its loop may not end on texts
  longer than `chunkSize`. Every caller passes 1000 and 200.
- Ranking.SortInPlace: sorts by insertion. The engine's own algorithm is not
  modelled; only its observable result is, that of a stable sort (ES2019).
- Retrieval.RetrieveRelevantChunks: in balanced mode the source sorts the
  Map's arrays in place, which mutates the arrays the map holds. The model
  sorts a copy (`SortedCopy`), because nothing reads those arrays afterwards.
- Retrieval.RetrieveRelevantChunks: the source reads the global store. The
  model passes the document list as an argument.
- The frontend (React components, the client-side check on remaining upload
  slots) is not part of this model.
