/**
 * `retrieveRelevantChunks`: lexical scoring of every chunk of the retained
 * documents against the words of the query, grouping by file name in a
 * JavaScript `Map`, and the two selection modes (a global top-k, or a
 * per-file quota when several files are mentioned).
 */
module Retrieval {
  import opened Text
  import opened Mentions
  import opened Matcher
  import opened Ranking

  /** A stored document `{ id, fileName, chunks }`. */
  datatype Document = Document(id: string, fileName: string, chunks: seq<string>)

  /** The `topK` every caller passes. */
  const DefaultTopK: nat := 5

  // ------------------------------------------------------------ query words

  /** `filter(w => w.length > 2)`, keeping order and duplicates. */
  function LongWords(ws: seq<string>): (r: seq<string>)
    ensures |r| <= |ws|
  {
    if ws == [] then [] else (if |ws[0]| > 2 then [ws[0]] else []) + LongWords(ws[1..])
  }

  /**
   * The filter keeps order and duplicates: it distributes over every split of
   * the word list, and a single word is kept exactly when it is longer than
   * two characters.
   */
  lemma LongWordsSplit(ws: seq<string>)
    ensures forall i :: 0 <= i <= |ws| ==> LongWords(ws) == LongWords(ws[..i]) + LongWords(ws[i..])
    ensures |ws| == 1 ==> LongWords(ws) == if |ws[0]| > 2 then ws else []
  {
    forall i | 0 <= i <= |ws|
      ensures LongWords(ws) == LongWords(ws[..i]) + LongWords(ws[i..])
    {
      assert ws == ws[..i] + ws[i..];
      LongWordsConcat(ws[..i], ws[i..]);
    }
    if |ws| == 1 {
      assert ws[1..] == [];
      assert LongWords(ws) == (if |ws[0]| > 2 then [ws[0]] else []) + LongWords([]);
    }
  }

  /** A word is kept exactly when it occurs in the input and is longer than two characters. */
  lemma {:induction false} LongWordsMember(ws: seq<string>)
    ensures forall w :: w in LongWords(ws) <==> w in ws && |w| > 2
    decreases |ws|
  {
    if ws != [] {
      LongWordsMember(ws[1..]);
      assert ws == [ws[0]] + ws[1..];
    }
  }

  lemma {:induction false} LongWordsConcat(a: seq<string>, b: seq<string>)
    ensures LongWords(a + b) == LongWords(a) + LongWords(b)
    decreases |a|
  {
    if a == [] {
      assert a + b == b;
    } else {
      assert (a + b)[0] == a[0] && (a + b)[1..] == a[1..] + b;
      LongWordsConcat(a[1..], b);
    }
  }

  /** `query.toLowerCase().split(/\s+/).filter(w => w.length > 2)`. */
  function QueryWords(query: string): seq<string> {
    LongWords(Words(Lower(query)))
  }

  /** Every query word is longer than two characters and holds no whitespace. */
  lemma QueryWordsShape(query: string)
    ensures forall w :: w in QueryWords(query) ==>
      |w| > 2 && forall k :: 0 <= k < |w| ==> !IsSpace(w[k])
  {
    WordsPartition(Lower(query));
    LongWordsMember(Words(Lower(query)));
  }

  // ---------------------------------------------------------------- scoring

  /** How many of `words` (duplicates counted) occur in `text`. */
  function MatchCount(words: seq<string>, text: string): (n: nat)
    ensures n <= |words|
    decreases |words|
  {
    if words == [] then 0
    else MatchCount(words[..|words| - 1], text) + (if Contains(text, words[|words| - 1]) then 1 else 0)
  }

  /** The counting loop of `retrieveRelevantChunks` for one chunk. */
  method ScoreChunk(chunk: string, queryWords: seq<string>) returns (score: nat)
    ensures score == MatchCount(queryWords, Lower(chunk))
  {
    var chunkLower := Lower(chunk);
    score := 0;
    for k := 0 to |queryWords|
      invariant score == MatchCount(queryWords[..k], chunkLower)
    {
      assert queryWords[..k + 1][..k] == queryWords[..k];
      if Contains(chunkLower, queryWords[k]) {
        score := score + 1;
      }
    }
    assert queryWords[..|queryWords|] == queryWords;
  }

  lemma {:induction false} MatchCountAppend(a: seq<string>, b: seq<string>, text: string)
    ensures MatchCount(a + b, text) == MatchCount(a, text) + MatchCount(b, text)
    decreases |b|
  {
    if b == [] {
      assert a + b == a;
    } else {
      MatchCountAppend(a, b[..|b| - 1], text);
      assert (a + b)[..|a + b| - 1] == a + b[..|b| - 1];
    }
  }

  /**
   * The score reaches `|words|` exactly when every word occurs in the text,
   * and is 0 exactly when none does.
   */
  lemma {:induction false} MatchCountExtremes(words: seq<string>, text: string)
    ensures MatchCount(words, text) == |words| <==> forall k :: 0 <= k < |words| ==> Contains(text, words[k])
    ensures MatchCount(words, text) == 0 <==> forall k :: 0 <= k < |words| ==> !Contains(text, words[k])
    decreases |words|
  {
    if words != [] {
      var init := words[..|words| - 1];
      MatchCountExtremes(init, text);
      assert forall k :: 0 <= k < |init| ==> init[k] == words[k];
    }
  }

  /** A word given twice in the query counts twice. */
  lemma DuplicateCountsTwice(words: seq<string>, w: string, text: string)
    requires Contains(text, w)
    ensures MatchCount(words + [w, w], text) == MatchCount(words, text) + 2
  {
    MatchCountAppend(words, [w, w], text);
    assert [w, w][..1] == [w];
    assert [w][..0] == [];
  }

  /** The entry `docChunks.push({ chunk, score, fileName, index })` for chunk `i`. */
  function ScoreAt(doc: Document, words: seq<string>, i: nat): ScoredChunk
    requires i < |doc.chunks|
  {
    ScoredChunk(doc.chunks[i], MatchCount(words, Lower(doc.chunks[i])), doc.fileName, i)
  }

  function ScoreDoc(doc: Document, words: seq<string>): seq<ScoredChunk> {
    seq(|doc.chunks|, i requires 0 <= i < |doc.chunks| => ScoreAt(doc, words, i))
  }

  /** The inner loop over `doc.chunks`. */
  method ScoreDocument(doc: Document, queryWords: seq<string>) returns (docChunks: seq<ScoredChunk>)
    ensures |docChunks| == |doc.chunks|
    ensures forall i :: 0 <= i < |doc.chunks| ==>
      && docChunks[i].chunk == doc.chunks[i]
      && docChunks[i].score == MatchCount(queryWords, Lower(doc.chunks[i]))
      && docChunks[i].fileName == doc.fileName
      && docChunks[i].index == i
    ensures docChunks == ScoreDoc(doc, queryWords)
  {
    docChunks := [];
    for i := 0 to |doc.chunks|
      invariant |docChunks| == i
      invariant forall k :: 0 <= k < i ==> docChunks[k] == ScoreAt(doc, queryWords, k)
    {
      var score := ScoreChunk(doc.chunks[i], queryWords);
      docChunks := docChunks + [ScoredChunk(doc.chunks[i], score, doc.fileName, i)];
    }
  }

  // ------------------------------------------------- the Map keyed by name

  /** A JavaScript `Map` from file name to scored chunks, in insertion order. */
  type ChunkMap = seq<(string, seq<ScoredChunk>)>

  /** Position of `key` in the map, or -1. */
  function IndexOf(m: ChunkMap, key: string): (p: int)
    ensures -1 <= p < |m|
    ensures p >= 0 ==> m[p].0 == key && forall k :: 0 <= k < p ==> m[k].0 != key
    ensures p < 0 ==> forall k :: 0 <= k < |m| ==> m[k].0 != key
    decreases |m|
  {
    if m == [] then -1
    else if m[0].0 == key then 0
    else
      var p := IndexOf(m[1..], key);
      if p < 0 then -1 else p + 1
  }

  predicate DistinctKeys(m: ChunkMap) {
    forall i, j :: 0 <= i < j < |m| ==> m[i].0 != m[j].0
  }

  /**
   * `m.set(key, v)`: an existing key keeps its position and gets the new
   * value; a new key goes at the end.
   */
  function MapSet(m: ChunkMap, key: string, v: seq<ScoredChunk>): (r: ChunkMap)
    requires DistinctKeys(m)
    ensures DistinctKeys(r)
    ensures |r| == if IndexOf(m, key) < 0 then |m| + 1 else |m|
    ensures forall k :: 0 <= k < |m| ==> r[k].0 == m[k].0
    ensures exists k :: 0 <= k < |r| && r[k] == (key, v)
    ensures forall k :: 0 <= k < |r| && r[k].0 != key ==> k < |m| && r[k] == m[k]
  {
    var p := IndexOf(m, key);
    if p < 0 then
      assert (m + [(key, v)])[|m|] == (key, v);
      m + [(key, v)]
    else
      m[p := (key, v)]
  }

  // ------------------------------------------------------------- grouping

  /** A document takes part when there are no targets or its name matches one. */
  predicate Retained(fileName: string, targets: seq<string>) {
    |targets| == 0 || DocMatchesMentions(fileName, targets)
  }

  /** `chunksPerDoc` after the loop over `docs`. */
  function Group(docs: seq<Document>, words: seq<string>, targets: seq<string>): (g: ChunkMap)
    ensures DistinctKeys(g)
    decreases |docs|
  {
    if docs == [] then []
    else
      var g := Group(docs[..|docs| - 1], words, targets);
      var d := docs[|docs| - 1];
      if Retained(d.fileName, targets) then MapSet(g, d.fileName, ScoreDoc(d, words)) else g
  }

  /** Index of the last document called `name`, or -1. */
  function LastWithName(docs: seq<Document>, name: string): (d: int)
    ensures -1 <= d < |docs|
    ensures d >= 0 ==> docs[d].fileName == name
    ensures forall e :: d < e < |docs| ==> docs[e].fileName != name
    decreases |docs|
  {
    if docs == [] then -1
    else if docs[|docs| - 1].fileName == name then |docs| - 1
    else LastWithName(docs[..|docs| - 1], name)
  }

  /** Entry `k` holds the scored chunks of the last retained document with its name. */
  predicate EntryFrom(g: ChunkMap, k: int, docs: seq<Document>, words: seq<string>, targets: seq<string>)
    requires 0 <= k < |g|
  {
    var d := LastWithName(docs, g[k].0);
    0 <= d && Retained(g[k].0, targets) && g[k].1 == ScoreDoc(docs[d], words)
  }

  /**
   * Each entry of the map holds the chunks of the last retained document
   * with its name.
   */
  lemma {:induction false} GroupEntries(docs: seq<Document>, words: seq<string>, targets: seq<string>)
    ensures var g := Group(docs, words, targets);
      forall k :: 0 <= k < |g| ==> EntryFrom(g, k, docs, words, targets)
    decreases |docs|
  {
    if docs != [] {
      var init := docs[..|docs| - 1];
      GroupEntries(init, words, targets);
      var g := Group(docs, words, targets);
      assert docs == init + [docs[|docs| - 1]];
      forall k | 0 <= k < |g|
        ensures EntryFrom(g, k, docs, words, targets)
      {
        GroupEntryStep(init, docs[|docs| - 1], words, targets, k);
      }
    }
  }

  lemma GroupEntryStep(init: seq<Document>, x: Document, words: seq<string>, targets: seq<string>, k: nat)
    requires forall j :: 0 <= j < |Group(init, words, targets)| ==>
      EntryFrom(Group(init, words, targets), j, init, words, targets)
    requires k < |Group(init + [x], words, targets)|
    ensures EntryFrom(Group(init + [x], words, targets), k, init + [x], words, targets)
  {
    var docs := init + [x];
    assert docs[..|docs| - 1] == init && docs[|docs| - 1] == x;
    var g0 := Group(init, words, targets);
    var g := Group(docs, words, targets);
    var name := g[k].0;
    if !Retained(x.fileName, targets) {
      assert g == g0;
      assert EntryFrom(g0, k, init, words, targets);
      assert name != x.fileName;
      var d := LastWithName(init, name);
      assert LastWithName(docs, name) == d;
      assert docs[d] == init[d];
    } else {
      assert g == MapSet(g0, x.fileName, ScoreDoc(x, words));
      if name != x.fileName {
        assert k < |g0| && g[k] == g0[k];
        assert EntryFrom(g0, k, init, words, targets);
        var d := LastWithName(init, name);
        assert LastWithName(docs, name) == d;
        assert docs[d] == init[d];
      } else {
        assert LastWithName(docs, name) == |docs| - 1;
        var j :| 0 <= j < |g| && g[j] == (x.fileName, ScoreDoc(x, words));
        assert j == k;
      }
    }
  }

  /** A name that has an entry keeps it when another document is grouped. */
  lemma GroupKeyStep(init: seq<Document>, x: Document, words: seq<string>, targets: seq<string>, name: string)
    requires (exists k :: 0 <= k < |Group(init, words, targets)| && Group(init, words, targets)[k].0 == name)
      || (name == x.fileName && Retained(name, targets))
    ensures exists k :: 0 <= k < |Group(init + [x], words, targets)| && Group(init + [x], words, targets)[k].0 == name
  {
    var docs := init + [x];
    assert docs[..|docs| - 1] == init && docs[|docs| - 1] == x;
    var g0 := Group(init, words, targets);
    var g := Group(docs, words, targets);
    if Retained(x.fileName, targets) {
      assert g == MapSet(g0, x.fileName, ScoreDoc(x, words));
      if name == x.fileName {
        var j :| 0 <= j < |g| && g[j] == (x.fileName, ScoreDoc(x, words));
        assert g[j].0 == name;
      } else {
        var k :| 0 <= k < |g0| && g0[k].0 == name;
        assert g[k].0 == name;
      }
    } else {
      assert g == g0;
    }
  }

  /** Every retained file name has an entry in the map. */
  lemma {:induction false} GroupKeys(docs: seq<Document>, words: seq<string>, targets: seq<string>)
    ensures var g := Group(docs, words, targets);
      forall d :: 0 <= d < |docs| && Retained(docs[d].fileName, targets) ==>
        exists k :: 0 <= k < |g| && g[k].0 == docs[d].fileName
    decreases |docs|
  {
    if docs != [] {
      var init := docs[..|docs| - 1];
      var x := docs[|docs| - 1];
      assert docs == init + [x];
      GroupKeys(init, words, targets);
      forall d | 0 <= d < |docs| && Retained(docs[d].fileName, targets)
        ensures exists k :: 0 <= k < |Group(docs, words, targets)| && Group(docs, words, targets)[k].0 == docs[d].fileName
      {
        GroupKeyAt(init, x, words, targets, d);
      }
    }
  }

  lemma GroupKeyAt(init: seq<Document>, x: Document, words: seq<string>, targets: seq<string>, d: nat)
    requires forall e :: 0 <= e < |init| && Retained(init[e].fileName, targets) ==>
      exists k :: 0 <= k < |Group(init, words, targets)| && Group(init, words, targets)[k].0 == init[e].fileName
    requires d <= |init| && Retained((init + [x])[d].fileName, targets)
    ensures exists k :: 0 <= k < |Group(init + [x], words, targets)| && Group(init + [x], words, targets)[k].0 == (init + [x])[d].fileName
  {
    if d < |init| {
      assert (init + [x])[d] == init[d];
      assert Retained(init[d].fileName, targets);
      assert exists k :: 0 <= k < |Group(init, words, targets)| && Group(init, words, targets)[k].0 == init[d].fileName;
      GroupKeyStep(init, x, words, targets, init[d].fileName);
    } else {
      assert (init + [x])[d] == x;
      GroupKeyStep(init, x, words, targets, x.fileName);
    }
  }

  /** Every entry is tagged with its own key. */
  predicate Tagged(g: ChunkMap) {
    forall k, c :: 0 <= k < |g| && c in g[k].1 ==> c.fileName == g[k].0
  }

  lemma ScoreDocShape(doc: Document, words: seq<string>, c: ScoredChunk)
    requires c in ScoreDoc(doc, words)
    ensures c.index < |doc.chunks| && c == ScoreAt(doc, words, c.index)
  {
  }

  lemma GroupTagged(docs: seq<Document>, words: seq<string>, targets: seq<string>)
    ensures Tagged(Group(docs, words, targets))
  {
    var g := Group(docs, words, targets);
    GroupEntries(docs, words, targets);
    forall k, c | 0 <= k < |g| && c in g[k].1
      ensures c.fileName == g[k].0
    {
      assert EntryFrom(g, k, docs, words, targets);
      var d := LastWithName(docs, g[k].0);
      ScoreDocShape(docs[d], words, c);
    }
  }

  // ------------------------------------------------------------ selection

  /** `for (const chunks of chunksPerDoc.values()) allChunks.push(...chunks)`. */
  function Pool(g: ChunkMap): seq<ScoredChunk>
    decreases |g|
  {
    if g == [] then [] else Pool(g[..|g| - 1]) + g[|g| - 1].1
  }

  /** The per-file selections `chunks.slice(0, per)` of each sorted entry, concatenated. */
  function MultiPool(g: ChunkMap, per: nat): seq<ScoredChunk>
    decreases |g|
  {
    if g == [] then [] else MultiPool(g[..|g| - 1], per) + Take(SortByScore(g[|g| - 1].1), per)
  }

  /** `Math.max(3, Math.ceil(topK / n))`. */
  function PerDocQuota(topK: nat, n: nat): (q: nat)
    requires n > 0
    ensures q >= 3 && q * n >= topK
    ensures q > 3 ==> (q - 1) * n < topK
  {
    var c := (topK + n - 1) / n;
    assert c * n + (topK + n - 1) % n == topK + n - 1;
    assert c * n >= topK;
    assert (c - 1) * n < topK by {
      assert (c - 1) * n == c * n - n;
    }
    if c > 3 then c else 3
  }

  /** Balanced mode: several targets and more than one file name retained. */
  predicate MultiMode(g: ChunkMap, targets: seq<string>) {
    |targets| > 1 && |g| > 1
  }

  /** What `retrieveRelevantChunks(query, topK, targets)` returns over `docs`. */
  function Retrieve(docs: seq<Document>, query: string, topK: nat, targets: seq<string>): seq<ScoredChunk> {
    Select(Group(docs, QueryWords(query), targets), topK, targets)
  }

  /** The selection step over the filled map. */
  function Select(g: ChunkMap, topK: nat, targets: seq<string>): seq<ScoredChunk> {
    if MultiMode(g, targets) then SortByScore(MultiPool(g, PerDocQuota(topK, |g|)))
    else Take(SortByScore(Pool(g)), topK)
  }

  /** Copy into an array and sort it in place. */
  method SortedCopy(s: seq<ScoredChunk>) returns (r: seq<ScoredChunk>)
    ensures r == SortByScore(s)
  {
    var a := new ScoredChunk[|s|](i requires 0 <= i < |s| => s[i]);
    assert a[..] == s;
    SortInPlace(a);
    r := a[..];
  }

  /** The loop over the documents that fills `chunksPerDoc`. */
  method GroupDocuments(docs: seq<Document>, queryWords: seq<string>, targets: seq<string>)
    returns (chunksPerDoc: ChunkMap)
    ensures chunksPerDoc == Group(docs, queryWords, targets)
  {
    chunksPerDoc := [];
    for d := 0 to |docs|
      invariant chunksPerDoc == Group(docs[..d], queryWords, targets)
    {
      assert docs[..d + 1][..d] == docs[..d];
      var doc := docs[d];
      if |targets| == 0 || DocMatchesMentions(doc.fileName, targets) {
        var docChunks := ScoreDocument(doc, queryWords);
        chunksPerDoc := MapSet(chunksPerDoc, doc.fileName, docChunks);
      }
    }
    assert docs[..|docs|] == docs;
  }

  /** Balanced mode: sort each entry, keep its first `per`, concatenate. */
  method PickPerFile(chunksPerDoc: ChunkMap, per: nat) returns (picked: seq<ScoredChunk>)
    ensures picked == MultiPool(chunksPerDoc, per)
  {
    picked := [];
    for k := 0 to |chunksPerDoc|
      invariant picked == MultiPool(chunksPerDoc[..k], per)
    {
      assert chunksPerDoc[..k + 1][..k] == chunksPerDoc[..k];
      var sorted := SortedCopy(chunksPerDoc[k].1);
      picked := picked + Take(sorted, per);
    }
    assert chunksPerDoc[..|chunksPerDoc|] == chunksPerDoc;
  }

  /** Standard mode: all chunks of all entries, in map order. */
  method PoolAll(chunksPerDoc: ChunkMap) returns (allChunks: seq<ScoredChunk>)
    ensures allChunks == Pool(chunksPerDoc)
  {
    allChunks := [];
    for k := 0 to |chunksPerDoc|
      invariant allChunks == Pool(chunksPerDoc[..k])
    {
      assert chunksPerDoc[..k + 1][..k] == chunksPerDoc[..k];
      allChunks := allChunks + chunksPerDoc[k].1;
    }
    assert chunksPerDoc[..|chunksPerDoc|] == chunksPerDoc;
  }

  /** `retrieveRelevantChunks` over the document list `docs`. */
  method RetrieveRelevantChunks(docs: seq<Document>, query: string, topK: nat, targets: seq<string>)
    returns (result: seq<ScoredChunk>)
    ensures result == Retrieve(docs, query, topK, targets)
  {
    var queryWords := LongWords(Words(Lower(query)));
    var chunksPerDoc := GroupDocuments(docs, queryWords, targets);
    if |targets| > 1 && |chunksPerDoc| > 1 {
      var per := PerDocQuota(topK, |chunksPerDoc|);
      var picked := PickPerFile(chunksPerDoc, per);
      result := SortedCopy(picked);
    } else {
      var allChunks := PoolAll(chunksPerDoc);
      var sorted := SortedCopy(allChunks);
      result := Take(sorted, topK);
    }
  }

  // ------------------------------------------------------------ properties

  lemma {:induction false} PoolMember(g: ChunkMap, c: ScoredChunk)
    requires c in Pool(g)
    ensures exists k :: 0 <= k < |g| && c in g[k].1
    decreases |g|
  {
    var init := g[..|g| - 1];
    if c in Pool(init) {
      PoolMember(init, c);
      var k :| 0 <= k < |init| && c in init[k].1;
      assert g[k] == init[k];
    } else {
      assert c in g[|g| - 1].1;
    }
  }

  /** What the sort and the slice keep comes from the sorted entry. */
  lemma TakeSortedMember(s: seq<ScoredChunk>, n: nat, c: ScoredChunk)
    requires c in Take(SortByScore(s), n)
    ensures c in s
  {
    SortByScorePermutes(s);
    assert c in SortByScore(s);
    assert c in multiset(SortByScore(s));
  }

  lemma {:induction false} MultiPoolMember(g: ChunkMap, per: nat, c: ScoredChunk)
    requires c in MultiPool(g, per)
    ensures exists k :: 0 <= k < |g| && c in g[k].1
    decreases |g|
  {
    var init := g[..|g| - 1];
    if c in MultiPool(init, per) {
      MultiPoolMember(init, per, c);
      var k :| 0 <= k < |init| && c in init[k].1;
      assert g[k] == init[k];
    } else {
      TakeSortedMember(g[|g| - 1].1, per, c);
    }
  }

  lemma SelectFromGroup(g: ChunkMap, topK: nat, targets: seq<string>, c: ScoredChunk)
    requires c in Select(g, topK, targets)
    ensures exists k :: 0 <= k < |g| && c in g[k].1
  {
    if MultiMode(g, targets) {
      var mp := MultiPool(g, PerDocQuota(topK, |g|));
      SortByScorePermutes(mp);
      assert c in multiset(SortByScore(mp));
      MultiPoolMember(g, PerDocQuota(topK, |g|), c);
    } else {
      TakeSortedMember(Pool(g), topK, c);
      PoolMember(g, c);
    }
  }

  /** In both modes the result is ordered by non-increasing score. */
  lemma RetrieveSorted(docs: seq<Document>, query: string, topK: nat, targets: seq<string>)
    ensures SortedByScore(Retrieve(docs, query, topK, targets))
  {
    var g := Group(docs, QueryWords(query), targets);
    if MultiMode(g, targets) {
      SortByScoreSorted(MultiPool(g, PerDocQuota(topK, |g|)));
    } else {
      SortByScoreSorted(Pool(g));
    }
  }

  /**
   * Every returned entry is chunk `index` of the last stored document named
   * `fileName`; that document is retained by the targets; and the score is
   * the number of query words found in the lower-cased chunk.
   */
  lemma RetrieveProvenance(docs: seq<Document>, query: string, topK: nat, targets: seq<string>, c: ScoredChunk)
    requires c in Retrieve(docs, query, topK, targets)
    ensures var d := LastWithName(docs, c.fileName);
      && 0 <= d
      && Retained(c.fileName, targets)
      && c.index < |docs[d].chunks|
      && c.chunk == docs[d].chunks[c.index]
      && c.score == MatchCount(QueryWords(query), Lower(c.chunk))
      && c.score <= |QueryWords(query)|
  {
    var words := QueryWords(query);
    var g := Group(docs, words, targets);
    SelectFromGroup(g, topK, targets, c);
    var k :| 0 <= k < |g| && c in g[k].1;
    GroupMember(docs, words, targets, k, c);
  }

  /** A chunk in entry `k` of the map is a scored chunk of the last document with its name. */
  lemma GroupMember(docs: seq<Document>, words: seq<string>, targets: seq<string>, k: nat, c: ScoredChunk)
    requires k < |Group(docs, words, targets)| && c in Group(docs, words, targets)[k].1
    ensures var d := LastWithName(docs, c.fileName);
      && 0 <= d && Retained(c.fileName, targets)
      && c.index < |docs[d].chunks| && c == ScoreAt(docs[d], words, c.index)
  {
    var g := Group(docs, words, targets);
    GroupEntries(docs, words, targets);
    assert EntryFrom(g, k, docs, words, targets);
    var d := LastWithName(docs, g[k].0);
    ScoreDocShape(docs[d], words, c);
  }

  /**
   * Standard mode returns `min(topK, total)` entries; every chunk it leaves
   * out scores no higher than any it keeps; and the chunks of each score
   * keep their encounter order (they are a prefix of that score's chunks in
   * the pool).
   */
  lemma RetrieveSingle(docs: seq<Document>, query: string, topK: nat, targets: seq<string>)
    returns (rest: seq<ScoredChunk>)
    requires !MultiMode(Group(docs, QueryWords(query), targets), targets)
    ensures var p := Pool(Group(docs, QueryWords(query), targets));
      var r := Retrieve(docs, query, topK, targets);
      && |r| == (if topK < |p| then topK else |p|)
      && multiset(r) + multiset(rest) == multiset(p)
      && (forall x, y :: x in r && y in rest ==> y.score <= x.score)
      && (forall v: nat :: Filter(r, ScoreIs(v)) <= Filter(p, ScoreIs(v)))
  {
    var g := Group(docs, QueryWords(query), targets);
    assert Retrieve(docs, query, topK, targets) == Take(SortByScore(Pool(g)), topK);
    rest := TopK(Pool(g), topK);
  }

  /** The first `n` of the sorted pool, and what is left behind. */
  lemma TopK(p: seq<ScoredChunk>, n: nat) returns (rest: seq<ScoredChunk>)
    ensures var r := Take(SortByScore(p), n);
      && |r| == (if n < |p| then n else |p|)
      && multiset(r) + multiset(rest) == multiset(p)
      && (forall x, y :: x in r && y in rest ==> y.score <= x.score)
      && (forall v: nat :: Filter(r, ScoreIs(v)) <= Filter(p, ScoreIs(v)))
  {
    var s := SortByScore(p);
    SortByScorePermutes(p);
    SortByScoreSorted(p);
    var r := Take(s, n);
    rest := s[|r|..];
    assert s == r + rest;
    forall x, y | x in r && y in rest
      ensures y.score <= x.score
    {
      var i :| 0 <= i < |r| && r[i] == x;
      var j :| 0 <= j < |rest| && rest[j] == y;
      assert s[i] == x && s[|r| + j] == y;
    }
    forall v: nat
      ensures Filter(r, ScoreIs(v)) <= Filter(p, ScoreIs(v))
    {
      FilterTake(s, n, ScoreIs(v));
      SortByScoreStable(p, v);
    }
  }

  function FromFile(name: string): ScoredChunk -> bool {
    (c: ScoredChunk) => c.fileName == name
  }

  lemma {:induction false} MultiPoolAbsent(g: ChunkMap, per: nat, name: string)
    requires Tagged(g) && forall k :: 0 <= k < |g| ==> g[k].0 != name
    ensures Filter(MultiPool(g, per), FromFile(name)) == []
    decreases |g|
  {
    if g != [] {
      var init, last := g[..|g| - 1], g[|g| - 1];
      var t := Take(SortByScore(last.1), per);
      assert Tagged(init) by {
        forall k, c | 0 <= k < |init| && c in init[k].1
          ensures c.fileName == init[k].0
        {
          assert init[k] == g[k];
        }
      }
      MultiPoolAbsent(init, per, name);
      FilterConcat(MultiPool(init, per), t, FromFile(name));
      forall i | 0 <= i < |t|
        ensures !FromFile(name)(t[i])
      {
        TakeSortedMember(last.1, per, t[i]);
      }
      FilterNone(t, FromFile(name));
    }
  }

  /** The chunks of file `g[k].0` in the balanced pool are that entry's top `per`. */
  lemma {:induction false} MultiPoolFile(g: ChunkMap, per: nat, k: nat)
    requires Tagged(g) && DistinctKeys(g) && k < |g|
    ensures Filter(MultiPool(g, per), FromFile(g[k].0)) == Take(SortByScore(g[k].1), per)
    decreases |g|
  {
    var init, last := g[..|g| - 1], g[|g| - 1];
    var t := Take(SortByScore(last.1), per);
    var p := FromFile(g[k].0);
    assert Tagged(init) by {
      forall j, c | 0 <= j < |init| && c in init[j].1
        ensures c.fileName == init[j].0
      {
        assert init[j] == g[j];
      }
    }
    FilterConcat(MultiPool(init, per), t, p);
    if k == |g| - 1 {
      MultiPoolAbsent(init, per, last.0);
      forall i | 0 <= i < |t|
        ensures p(t[i])
      {
        TakeSortedMember(last.1, per, t[i]);
      }
      FilterAll(t, p);
    } else {
      assert init[k] == g[k];
      MultiPoolFile(init, per, k);
      forall i | 0 <= i < |t|
        ensures !p(t[i])
      {
        TakeSortedMember(last.1, per, t[i]);
      }
      FilterNone(t, p);
    }
  }

  lemma {:induction false} MultiPoolFull(g: ChunkMap, per: nat)
    requires forall k :: 0 <= k < |g| ==> |g[k].1| >= per
    ensures |MultiPool(g, per)| == per * |g|
    decreases |g|
  {
    if g != [] {
      var init := g[..|g| - 1];
      var last := g[|g| - 1].1;
      assert forall k :: 0 <= k < |init| ==> init[k] == g[k];
      MultiPoolFull(init, per);
      SortByScorePermutes(last);
      var t := Take(SortByScore(last), per);
      assert |t| == per;
      assert MultiPool(g, per) == MultiPool(init, per) + t;
      MulSucc(per, |init|);
    }
  }

  lemma MulSucc(a: nat, b: nat)
    ensures a * (b + 1) == a * b + a
  {
  }

  /**
   * Balanced mode returns, for each retained file name, `min(per, chunks)`
   * of its chunks, without any global cap (so the total reaches at least
   * `topK` when every file has `per` chunks); the result is a permutation of
   * the per-file selections and keeps the encounter order of equal scores.
   */
  lemma RetrieveMulti(docs: seq<Document>, query: string, topK: nat, targets: seq<string>)
    requires MultiMode(Group(docs, QueryWords(query), targets), targets)
    ensures var g := Group(docs, QueryWords(query), targets);
      var per := PerDocQuota(topK, |g|);
      var r := Retrieve(docs, query, topK, targets);
      && multiset(r) == multiset(MultiPool(g, per))
      && (forall v: nat :: Filter(r, ScoreIs(v)) == Filter(MultiPool(g, per), ScoreIs(v)))
      && (forall k :: 0 <= k < |g| ==>
            |Filter(r, FromFile(g[k].0))| == if per < |g[k].1| then per else |g[k].1|)
      && ((forall k :: 0 <= k < |g| ==> |g[k].1| >= per) ==> |r| == per * |g| >= topK)
  {
    var g := Group(docs, QueryWords(query), targets);
    var per := PerDocQuota(topK, |g|);
    var mp := MultiPool(g, per);
    SortByScorePermutes(mp);
    forall v: nat
      ensures Filter(SortByScore(mp), ScoreIs(v)) == Filter(mp, ScoreIs(v))
    {
      SortByScoreStable(mp, v);
    }
    GroupTagged(docs, QueryWords(query), targets);
    forall k | 0 <= k < |g|
      ensures |Filter(SortByScore(mp), FromFile(g[k].0))| == if per < |g[k].1| then per else |g[k].1|
    {
      MultiPoolFile(g, per, k);
      SortByScoreKeepsCount(mp, FromFile(g[k].0));
      SortByScorePermutes(g[k].1);
    }
    if forall k :: 0 <= k < |g| ==> |g[k].1| >= per {
      MultiPoolFull(g, per);
    }
  }

  // -------------------------------------------------------- effective query

  /** `cleanQuery || query`: the empty cleaned query falls back to the raw one. */
  function EffectiveQuery(query: string, cleanQuery: string): string {
    if cleanQuery == [] then query else cleanQuery
  }

  /**
   * The query that gets scored is the cleaned query, free of `@name` tokens,
   * unless cleaning left nothing; then it is the raw query, tokens included.
   */
  lemma EffectiveQueryCases(query: string)
    ensures var e := EffectiveQuery(query, CleanQuery(query));
      && (CleanQuery(query) == [] ==> e == query)
      && (CleanQuery(query) != [] ==> e == CleanQuery(query) && NoMention(e) && MentionsFrom(e, 0) == [])
  {
    ParseCleanQueryAgain(query);
    CleanQueryHasNoMention(query);
  }

  /** "@cv" alone is scored with the single query word "@cv". */
  lemma ExampleMentionOnlyQuery(query: string)
    requires query == "@cv"
    ensures CleanQuery(query) == []
    ensures QueryWords(EffectiveQuery(query, CleanQuery(query))) == ["@cv"]
  {
    assert forall k :: 1 <= k < |query| ==> IsNameChar(query[k]) && query[k] != '@';
    NameEndIs(query, 1, 3);
    assert MentionAt(query, 0);
    assert RemoveFrom(query, 0) == [];
    var lower := Lower(query);
    assert lower == query;
    assert forall k :: 0 <= k < |lower| ==> !IsSpace(lower[k]);
    assert SpanLength(lower, IsWordChar) == |lower|;
    assert lower[|lower|..] == [] && lower[..|lower|] == lower;
    assert !IsSpace(lower[0]);
    assert Words(lower) == [lower] + Words([]);
  }
}
