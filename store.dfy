/**
 * The in-memory `documentStore` of the server: the uploaded documents in
 * upload order and the chat history of each session, together with the
 * operations the route handlers perform on them.
 */
module Store {
  import opened Wrappers
  import opened Chunker
  import opened Mentions
  import opened Ranking
  import opened Retrieval

  /** The limit the single-file upload enforces. */
  const MaxDocuments: nat := 5

  datatype Role = User | Assistant
  datatype Turn = Turn(role: Role, content: string)

  /**
   * A received file: its original name, and its extracted text, or `None`
   * when extraction threw (an unsupported type, an unreadable PDF).
   */
  datatype Upload = Upload(fileName: string, text: Option<string>)

  datatype UploadError = NoFile | CapacityExceeded | ExtractionFailed
  datatype Receipt = Receipt(fileName: string, totalChunks: nat, documentId: string)
  datatype FileResult = Uploaded(receipt: Receipt) | Failed(fileName: string)
  datatype DeleteError = NotFound
  datatype ChatError = QueryRequired | NoDocuments
  datatype ChatReply = ChatReply(answer: string, sources: seq<string>, chunks: seq<ScoredChunk>)
  datatype DocumentInfo = DocumentInfo(id: string, fileName: string, chunksCount: nat)

  /** The document a successful extraction produces. */
  function MakeDocument(id: string, fileName: string, text: string): Document {
    Document(id, fileName, Chunks(text, DefaultChunkSize, DefaultOverlap))
  }

  // ------------------------------------------------------------ documents

  /** `documents.findIndex(doc => doc.id === id)`. */
  function FindIndex(docs: seq<Document>, id: string): (i: int)
    ensures -1 <= i < |docs|
    ensures i >= 0 ==> docs[i].id == id && forall k :: 0 <= k < i ==> docs[k].id != id
    ensures i < 0 ==> forall k :: 0 <= k < |docs| ==> docs[k].id != id
    decreases |docs|
  {
    if docs == [] then -1
    else if docs[0].id == id then 0
    else
      var i := FindIndex(docs[1..], id);
      if i < 0 then -1 else i + 1
  }

  /** The search loop behind `findIndex`. */
  method FindDocument(docs: seq<Document>, id: string) returns (index: int)
    ensures index == FindIndex(docs, id)
  {
    index := 0;
    while index < |docs| && docs[index].id != id
      invariant 0 <= index <= |docs|
      invariant forall k :: 0 <= k < index ==> docs[k].id != id
    {
      index := index + 1;
    }
    if index == |docs| {
      index := -1;
    }
  }

  /** `splice(i, 1)`: the document at `i` goes, the others keep their order. */
  function RemoveAt(docs: seq<Document>, i: nat): (r: seq<Document>)
    requires i < |docs|
    ensures |r| == |docs| - 1
    ensures forall k :: 0 <= k < i ==> r[k] == docs[k]
    ensures forall k :: i <= k < |r| ==> r[k] == docs[k + 1]
    ensures multiset(r) + multiset{docs[i]} == multiset(docs)
  {
    assert docs == docs[..i] + [docs[i]] + docs[i + 1..];
    docs[..i] + docs[i + 1..]
  }

  /** The documents a batch adds: one per file whose text could be extracted. */
  function StoredDocuments(files: seq<Upload>, ids: seq<string>): seq<Document>
    requires |ids| == |files|
    decreases |files|
  {
    if files == [] then []
    else
      var n := |files| - 1;
      StoredDocuments(files[..n], ids[..n])
        + (if files[n].text.Some? then [MakeDocument(ids[n], files[n].fileName, files[n].text.value)] else [])
  }

  /** The per-file report of a batch. */
  function BatchResult(file: Upload, id: string): FileResult {
    if file.text.Some? then
      Uploaded(Receipt(file.fileName, |Chunks(file.text.value, DefaultChunkSize, DefaultOverlap)|, id))
    else Failed(file.fileName)
  }

  function BatchResults(files: seq<Upload>, ids: seq<string>): (r: seq<FileResult>)
    requires |ids| == |files|
    ensures |r| == |files|
  {
    seq(|files|, i requires 0 <= i < |files| => BatchResult(files[i], ids[i]))
  }

  function SuccessCount(files: seq<Upload>): (n: nat)
    ensures n <= |files|
    decreases |files|
  {
    if files == [] then 0
    else SuccessCount(files[..|files| - 1]) + (if files[|files| - 1].text.Some? then 1 else 0)
  }

  /**
   * A batch adds exactly one document per extractable file, in order, whose
   * chunks come from that file's text: the documents of a batch are those of
   * its first `j` files followed by those of the rest, a single file adds
   * its own document when its text could be extracted and nothing
   * otherwise, and the count is the number of extractable files.
   */
  lemma StoredDocumentsShape(files: seq<Upload>, ids: seq<string>)
    requires |ids| == |files|
    ensures |StoredDocuments(files, ids)| == SuccessCount(files)
    ensures forall d :: d in StoredDocuments(files, ids) ==>
      exists i :: 0 <= i < |files| && files[i].text.Some? && d == MakeDocument(ids[i], files[i].fileName, files[i].text.value)
    ensures forall j :: 0 <= j <= |files| ==>
      StoredDocuments(files, ids) == StoredDocuments(files[..j], ids[..j]) + StoredDocuments(files[j..], ids[j..])
    ensures |files| == 1 ==>
      StoredDocuments(files, ids) == if files[0].text.Some? then [MakeDocument(ids[0], files[0].fileName, files[0].text.value)] else []
  {
    StoredDocumentsFrom(files, ids);
    forall j | 0 <= j <= |files|
      ensures StoredDocuments(files, ids) == StoredDocuments(files[..j], ids[..j]) + StoredDocuments(files[j..], ids[j..])
    {
      StoredDocumentsSplitAt(files, ids, j);
    }
    if |files| == 1 {
      StoredDocumentsSingle(files, ids);
    }
  }

  lemma StoredDocumentsSplitAt(files: seq<Upload>, ids: seq<string>, j: nat)
    requires |ids| == |files| && j <= |files|
    ensures StoredDocuments(files, ids) == StoredDocuments(files[..j], ids[..j]) + StoredDocuments(files[j..], ids[j..])
  {
    assert files == files[..j] + files[j..] && ids == ids[..j] + ids[j..];
    StoredDocumentsConcat(files[..j], ids[..j], files[j..], ids[j..]);
  }

  lemma StoredDocumentsSingle(files: seq<Upload>, ids: seq<string>)
    requires |ids| == |files| == 1
    ensures StoredDocuments(files, ids) ==
      if files[0].text.Some? then [MakeDocument(ids[0], files[0].fileName, files[0].text.value)] else []
  {
    assert files[..0] == [] && ids[..0] == [];
  }

  lemma {:induction false} StoredDocumentsConcat(f1: seq<Upload>, i1: seq<string>, f2: seq<Upload>, i2: seq<string>)
    requires |i1| == |f1| && |i2| == |f2|
    ensures StoredDocuments(f1 + f2, i1 + i2) == StoredDocuments(f1, i1) + StoredDocuments(f2, i2)
    decreases |f2|
  {
    if f2 == [] {
      assert f1 + f2 == f1 && i1 + i2 == i1;
    } else {
      var n := |f2| - 1;
      var f, i := f1 + f2, i1 + i2;
      assert f[..|f| - 1] == f1 + f2[..n] && i[..|i| - 1] == i1 + i2[..n];
      assert f[|f| - 1] == f2[n] && i[|i| - 1] == i2[n];
      StoredDocumentsConcat(f1, i1, f2[..n], i2[..n]);
    }
  }

  /** The count and provenance parts of `StoredDocumentsShape`, by induction. */
  lemma {:induction false} StoredDocumentsFrom(files: seq<Upload>, ids: seq<string>)
    requires |ids| == |files|
    ensures |StoredDocuments(files, ids)| == SuccessCount(files)
    ensures forall d :: d in StoredDocuments(files, ids) ==>
      exists i :: 0 <= i < |files| && files[i].text.Some? && d == MakeDocument(ids[i], files[i].fileName, files[i].text.value)
    decreases |files|
  {
    if files != [] {
      var n := |files| - 1;
      StoredDocumentsFrom(files[..n], ids[..n]);
      forall d | d in StoredDocuments(files, ids)
        ensures exists i :: 0 <= i < |files| && files[i].text.Some? && d == MakeDocument(ids[i], files[i].fileName, files[i].text.value)
      {
        if d in StoredDocuments(files[..n], ids[..n]) {
          var i :| 0 <= i < n && files[..n][i].text.Some?
            && d == MakeDocument(ids[..n][i], files[..n][i].fileName, files[..n][i].text.value);
          assert files[..n][i] == files[i] && ids[..n][i] == ids[i];
        } else {
          assert d == MakeDocument(ids[n], files[n].fileName, files[n].text.value);
        }
      }
    }
  }

  /**
   * The batch upload has no capacity check: a store already holding the
   * maximum still grows by one document per extractable file.
   */
  lemma BatchBypassesLimit(docs: seq<Document>, files: seq<Upload>, ids: seq<string>)
    requires |ids| == |files| && |docs| >= MaxDocuments && SuccessCount(files) > 0
    ensures |docs + StoredDocuments(files, ids)| > MaxDocuments
  {
    StoredDocumentsShape(files, ids);
  }

  // ------------------------------------------------------------ chat history

  /** `chatHistory.get(sessionId) || []`. */
  function History(h: map<string, seq<Turn>>, sessionId: string): seq<Turn> {
    if sessionId in h then h[sessionId] else []
  }

  /**
   * `if (sessionId) { create the entry if absent; push the user turn and the
   * assistant turn }`.
   */
  function Record(h: map<string, seq<Turn>>, sessionId: string, query: string, answer: string): map<string, seq<Turn>> {
    if sessionId == "" then h
    else h[sessionId := History(h, sessionId) + [Turn(User, query), Turn(Assistant, answer)]]
  }

  /** A session's turns alternate, starting with the user, and come in pairs. */
  predicate Alternating(turns: seq<Turn>) {
    |turns| % 2 == 0 && forall i :: 0 <= i < |turns| ==> turns[i].role == (if i % 2 == 0 then User else Assistant)
  }

  predicate WellFormedHistory(h: map<string, seq<Turn>>) {
    forall s :: s in h ==> Alternating(h[s])
  }

  /**
   * Recording appends the pair to the named session and touches nothing
   * else; an empty session id records nothing.
   */
  lemma RecordAppends(h: map<string, seq<Turn>>, sessionId: string, query: string, answer: string, other: string)
    requires other != sessionId
    ensures sessionId != "" ==>
      History(Record(h, sessionId, query, answer), sessionId) == History(h, sessionId) + [Turn(User, query), Turn(Assistant, answer)]
    ensures sessionId == "" ==> Record(h, sessionId, query, answer) == h
    ensures History(Record(h, sessionId, query, answer), other) == History(h, other)
    ensures other in Record(h, sessionId, query, answer) <==> other in h
  {
  }

  /** Recording keeps every session alternating. */
  lemma RecordKeepsAlternating(h: map<string, seq<Turn>>, sessionId: string, query: string, answer: string)
    requires WellFormedHistory(h)
    ensures WellFormedHistory(Record(h, sessionId, query, answer))
  {
    if sessionId != "" {
      var t := History(h, sessionId);
      var u := t + [Turn(User, query), Turn(Assistant, answer)];
      assert Alternating(t);
      forall i | 0 <= i < |u|
        ensures u[i].role == (if i % 2 == 0 then User else Assistant)
      {
        if i >= |t| {
          assert i == |t| || i == |t| + 1;
        }
      }
    }
  }

  /** `relevantChunks.map((c) => c.fileName)`. */
  function Sources(chunks: seq<ScoredChunk>): (r: seq<string>)
    ensures |r| == |chunks| && forall i :: 0 <= i < |chunks| ==> r[i] == chunks[i].fileName
  {
    seq(|chunks|, i requires 0 <= i < |chunks| => chunks[i].fileName)
  }

  // ----------------------------------------------------------------- store

  class DocumentStore {
    var documents: seq<Document>
    var chatHistory: map<string, seq<Turn>>

    predicate Valid()
      reads this
    {
      WellFormedHistory(chatHistory)
    }

    constructor()
      ensures Valid()
      ensures documents == [] && chatHistory == map[]
    {
      documents := [];
      chatHistory := map[];
    }

    /** `GET /api/documents`: id, name and chunk count of each document, in order. */
    function Listing(): (r: seq<DocumentInfo>)
      reads this
      ensures |r| == |documents|
      ensures forall i :: 0 <= i < |documents| ==>
        r[i] == DocumentInfo(documents[i].id, documents[i].fileName, |documents[i].chunks|)
    {
      seq(|documents|, i requires 0 <= i < |documents| reads this =>
        DocumentInfo(documents[i].id, documents[i].fileName, |documents[i].chunks|))
    }

    /**
     * `POST /api/upload`: no file, then a full store, then a failed
     * extraction are refused and change nothing; otherwise the chunked
     * document is appended under the id it is given.
     */
    method UploadOne(file: Option<Upload>, id: string) returns (r: Result<Receipt, UploadError>)
      requires Valid()
      modifies this
      ensures Valid()
      ensures chatHistory == old(chatHistory)
      ensures file.None? ==> r == Failure(NoFile)
      ensures file.Some? && |old(documents)| >= MaxDocuments ==> r == Failure(CapacityExceeded)
      ensures file.Some? && |old(documents)| < MaxDocuments && file.value.text.None? ==> r == Failure(ExtractionFailed)
      ensures file.Some? && |old(documents)| < MaxDocuments && file.value.text.Some? ==> r.Success?
      ensures r.Failure? ==> documents == old(documents)
      ensures r.Success? ==>
        && file.Some? && file.value.text.Some? && |old(documents)| < MaxDocuments
        && documents == old(documents) + [MakeDocument(id, file.value.fileName, file.value.text.value)]
        && r.value == Receipt(file.value.fileName, |documents[|documents| - 1].chunks|, id)
    {
      if file.None? {
        return Failure(NoFile);
      }
      if |documents| >= MaxDocuments {
        return Failure(CapacityExceeded);
      }
      if file.value.text.None? {
        return Failure(ExtractionFailed);
      }
      var chunks := SplitIntoChunks(file.value.text.value, DefaultChunkSize, DefaultOverlap);
      documents := documents + [Document(id, file.value.fileName, chunks)];
      r := Success(Receipt(file.value.fileName, |chunks|, id));
    }

    /**
     * `POST /api/upload/multiple`: every file is tried in turn, with no
     * capacity check; `ids[i]` is the id file `i` gets if it is stored.
     */
    method UploadMany(files: seq<Upload>, ids: seq<string>) returns (r: Result<seq<FileResult>, UploadError>)
      requires Valid() && |ids| == |files|
      modifies this
      ensures Valid()
      ensures chatHistory == old(chatHistory)
      ensures files == [] ==> r == Failure(NoFile) && documents == old(documents)
      ensures files != [] ==>
        && r == Success(BatchResults(files, ids))
        && documents == old(documents) + StoredDocuments(files, ids)
    {
      if files == [] {
        return Failure(NoFile);
      }
      var results: seq<FileResult> := [];
      ghost var before := documents;
      for i := 0 to |files|
        invariant documents == before + StoredDocuments(files[..i], ids[..i])
        invariant |results| == i
        invariant forall k :: 0 <= k < i ==> results[k] == BatchResult(files[k], ids[k])
        invariant chatHistory == old(chatHistory)
      {
        assert files[..i + 1][..i] == files[..i] && ids[..i + 1][..i] == ids[..i];
        var file := files[i];
        if file.text.Some? {
          var chunks := SplitIntoChunks(file.text.value, DefaultChunkSize, DefaultOverlap);
          documents := documents + [Document(ids[i], file.fileName, chunks)];
          results := results + [Uploaded(Receipt(file.fileName, |chunks|, ids[i]))];
        } else {
          results := results + [Failed(file.fileName)];
        }
      }
      assert files[..|files|] == files && ids[..|ids|] == ids;
      assert results == BatchResults(files, ids);
      r := Success(results);
    }

    /**
     * `DELETE /api/documents/:id`: the first document with that id is
     * spliced out and its name reported; an unknown id changes nothing.
     */
    method Delete(id: string) returns (r: Result<string, DeleteError>)
      requires Valid()
      modifies this
      ensures Valid()
      ensures chatHistory == old(chatHistory)
      ensures var i := FindIndex(old(documents), id);
        && (i < 0 ==> r == Failure(NotFound) && documents == old(documents))
        && (i >= 0 ==> r == Success(old(documents)[i].fileName) && documents == RemoveAt(old(documents), i))
    {
      var index := FindDocument(documents, id);
      if index == -1 {
        return Failure(NotFound);
      }
      var deleted := documents[index];
      documents := RemoveAt(documents, index);
      r := Success(deleted.fileName);
    }

    /** The history bookkeeping at the end of both chat routes. */
    method RecordTurn(sessionId: string, query: string, answer: string)
      requires Valid()
      modifies this
      ensures Valid()
      ensures documents == old(documents)
      ensures chatHistory == Record(old(chatHistory), sessionId, query, answer)
    {
      RecordKeepsAlternating(chatHistory, sessionId, query, answer);
      if sessionId != "" {
        if sessionId !in chatHistory {
          chatHistory := chatHistory[sessionId := []];
        }
        chatHistory := chatHistory[sessionId := chatHistory[sessionId] + [Turn(User, query), Turn(Assistant, answer)]];
      }
    }

    /** `GET /api/chat/history/:sessionId`. */
    function GetHistory(sessionId: string): (turns: seq<Turn>)
      reads this
      requires Valid()
      ensures Alternating(turns)
      ensures sessionId !in chatHistory ==> turns == []
    {
      History(chatHistory, sessionId)
    }

    /**
     * `POST /api/chat` (and its streaming twin): an empty query or an empty
     * store is refused; otherwise the mentions are parsed, the chunks
     * retrieved with `topK` 5 and the mentions as targets, and the turn
     * recorded.  `answer` is what the language model returned.
     */
    method Chat(query: string, sessionId: string, answer: string) returns (r: Result<ChatReply, ChatError>)
      requires Valid()
      modifies this
      ensures Valid()
      ensures documents == old(documents)
      ensures query == "" ==> r == Failure(QueryRequired)
      ensures query != "" && old(documents) == [] ==> r == Failure(NoDocuments)
      ensures query != "" && old(documents) != [] ==> r.Success?
      ensures r.Failure? ==> chatHistory == old(chatHistory)
      ensures r.Success? ==>
        && query != "" && documents != []
        && r.value.chunks == Retrieve(documents, EffectiveQuery(query, CleanQuery(query)), DefaultTopK, MentionsFrom(query, 0))
        && r.value.sources == Sources(r.value.chunks)
        && r.value.answer == answer
        && chatHistory == Record(old(chatHistory), sessionId, query, answer)
    {
      if query == "" {
        return Failure(QueryRequired);
      }
      if |documents| == 0 {
        return Failure(NoDocuments);
      }
      var mentions, cleanQuery := ParseFileMentions(query);
      var relevant := RetrieveRelevantChunks(documents, EffectiveQuery(query, cleanQuery), DefaultTopK, mentions);
      RecordTurn(sessionId, query, answer);
      r := Success(ChatReply(answer, Sources(relevant), relevant));
    }
  }
}
