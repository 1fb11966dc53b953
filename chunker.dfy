/**
 * `splitIntoChunks`: fixed-size windows over the extracted text, each window
 * starting `chunkSize - overlap` characters after the previous one.
 */
module Chunker {

  /** The defaults every upload path uses. */
  const DefaultChunkSize: nat := 1000
  const DefaultOverlap: nat := 200

  function Min(a: int, b: int): int {
    if a <= b then a else b
  }

  /**
   * The windows the loop emits from the moment its cursor stands at `start`:
   * a full window while the text goes on past it, then the tail as the last
   * window.
   */
  function ChunksFrom(text: string, size: nat, overlap: nat, start: nat): seq<string>
    requires overlap < size && start <= |text|
    decreases |text| - start
  {
    if start == |text| then []
    else if start + size >= |text| then [text[start..]]
    else [text[start..start + size]] + ChunksFrom(text, size, overlap, start + size - overlap)
  }

  function Chunks(text: string, size: nat, overlap: nat): seq<string>
    requires overlap < size
  {
    ChunksFrom(text, size, overlap, 0)
  }

  /**
   * The loop of `splitIntoChunks`.  The source does not validate its
   * arguments; it only terminates when the step `chunkSize - overlap` is
   * positive, which is required here.
   */
  method SplitIntoChunks(text: string, chunkSize: nat, overlap: nat) returns (chunks: seq<string>)
    requires overlap < chunkSize
    ensures chunks == Chunks(text, chunkSize, overlap)
  {
    chunks := [];
    var start: int := 0;
    while start < |text|
      invariant 0 <= start <= |text|
      invariant chunks + ChunksFrom(text, chunkSize, overlap, start) == Chunks(text, chunkSize, overlap)
      decreases |text| - start
    {
      var end := Min(start + chunkSize, |text|);
      chunks := chunks + [text[start..end]];
      ghost var previous := start;
      start := end - overlap;
      if start + overlap >= |text| {
        assert end == |text| && text[previous..end] == text[previous..];
        break;
      }
    }
  }

  // ------------------------------------------------------------ properties

  /** The window at offset `lo = start + k * (size - overlap)`, as a parameter to keep the arithmetic linear. */
  lemma {:induction false} ChunkAtFrom(text: string, size: nat, overlap: nat, start: nat, k: nat, lo: nat)
    requires overlap < size && start <= |text|
    requires k < |ChunksFrom(text, size, overlap, start)|
    requires lo == start + k * (size - overlap)
    ensures lo < |text|
    ensures ChunksFrom(text, size, overlap, start)[k] == text[lo..Min(lo + size, |text|)]
    decreases k
  {
    if k > 0 {
      var next := start + size - overlap;
      ChunkAtFrom(text, size, overlap, next, k - 1, next + (k - 1) * (size - overlap));
      assert next + (k - 1) * (size - overlap) == lo;
    }
  }

  /**
   * Chunk `k` is the window of at most `size` characters starting at
   * `k * (size - overlap)`.
   */
  lemma ChunkAt(text: string, size: nat, overlap: nat, k: nat)
    requires overlap < size && k < |Chunks(text, size, overlap)|
    ensures k * (size - overlap) < |text|
    ensures var lo := k * (size - overlap);
      Chunks(text, size, overlap)[k] == text[lo..Min(lo + size, |text|)]
    ensures 0 < |Chunks(text, size, overlap)[k]| <= size
  {
    var lo := k * (size - overlap);
    ChunkAtFrom(text, size, overlap, 0, k, lo);
    WindowLength(text, lo, size);
  }

  lemma WindowLength(text: string, lo: nat, size: nat)
    requires lo < |text| && size > 0
    ensures 0 < |text[lo..Min(lo + size, |text|)]| <= size
  {
  }

  lemma {:induction false} ChunkCountFrom(text: string, size: nat, overlap: nat, start: nat)
    requires overlap < size && start < |text|
    ensures var n := |ChunksFrom(text, size, overlap, start)|;
      && n >= 1
      && start + (n - 1) * (size - overlap) + size >= |text|
      && (n >= 2 ==> start + (n - 2) * (size - overlap) + size < |text|)
    decreases |text| - start
  {
    if start + size < |text| {
      var next := start + size - overlap;
      ChunkCountFrom(text, size, overlap, next);
      var m := |ChunksFrom(text, size, overlap, next)|;
      assert next + (m - 1) * (size - overlap) == start + m * (size - overlap);
      assert m >= 2 ==> next + (m - 2) * (size - overlap) == start + (m - 1) * (size - overlap);
    }
  }

  /**
   * The loop stops exactly when a window reaches the end of the text: the
   * last chunk ends at `|text|` and no earlier one does.  Empty text gives no
   * chunks, and text no longer than `size` gives the whole text as one chunk.
   */
  lemma ChunkCount(text: string, size: nat, overlap: nat)
    requires overlap < size
    ensures |text| == 0 ==> Chunks(text, size, overlap) == []
    ensures 0 < |text| <= size ==> Chunks(text, size, overlap) == [text]
    ensures var n := |Chunks(text, size, overlap)|;
      |text| > 0 ==>
        && n >= 1
        && (n - 1) * (size - overlap) + size >= |text|
        && (n >= 2 ==> (n - 2) * (size - overlap) + size < |text|)
  {
    if |text| > 0 {
      ChunkCountFrom(text, size, overlap, 0);
    }
  }

  /**
   * Consecutive chunks share exactly `overlap` characters: every chunk but
   * the last is a full window whose last `overlap` characters begin the next.
   */
  lemma ChunkOverlap(text: string, size: nat, overlap: nat, k: nat)
    requires overlap < size && k + 1 < |Chunks(text, size, overlap)|
    ensures |Chunks(text, size, overlap)[k]| == size
    ensures |Chunks(text, size, overlap)[k + 1]| > overlap
    ensures Chunks(text, size, overlap)[k][size - overlap..] == Chunks(text, size, overlap)[k + 1][..overlap]
  {
    OverlapFrom(text, size, overlap, 0, k);
  }

  lemma {:induction false} OverlapFrom(text: string, size: nat, overlap: nat, start: nat, k: nat)
    requires overlap < size && start <= |text| && k + 1 < |ChunksFrom(text, size, overlap, start)|
    ensures |ChunksFrom(text, size, overlap, start)[k]| == size
    ensures |ChunksFrom(text, size, overlap, start)[k + 1]| > overlap
    ensures ChunksFrom(text, size, overlap, start)[k][size - overlap..]
         == ChunksFrom(text, size, overlap, start)[k + 1][..overlap]
    decreases k
  {
    var next := start + size - overlap;
    var cs := ChunksFrom(text, size, overlap, start);
    assert start + size < |text|;
    assert cs[1..] == ChunksFrom(text, size, overlap, next);
    if k == 0 {
      assert cs[0] == text[start..start + size];
      var c1 := ChunksFrom(text, size, overlap, next)[0];
      assert c1 == text[next..Min(next + size, |text|)];
      assert cs[0][size - overlap..] == text[next..start + size];
      assert c1[..overlap] == text[next..next + overlap];
    } else {
      OverlapFrom(text, size, overlap, next, k - 1);
    }
  }

  /**
   * The novel part of each chunk, put back together: every chunk but the
   * last contributes all but its final `overlap` characters.
   */
  function Stitch(cs: seq<string>, overlap: nat): string
    requires forall k :: 0 <= k < |cs| - 1 ==> |cs[k]| >= overlap
  {
    if |cs| == 0 then []
    else if |cs| == 1 then cs[0]
    else cs[0][..|cs[0]| - overlap] + Stitch(cs[1..], overlap)
  }

  lemma {:induction false} StitchFrom(text: string, size: nat, overlap: nat, start: nat)
    requires overlap < size && start <= |text|
    ensures var cs := ChunksFrom(text, size, overlap, start);
      (forall k :: 0 <= k < |cs| - 1 ==> |cs[k]| >= overlap) && Stitch(cs, overlap) == text[start..]
    decreases |text| - start
  {
    if start < |text| && start + size < |text| {
      var next := start + size - overlap;
      StitchFrom(text, size, overlap, next);
      var cs := ChunksFrom(text, size, overlap, start);
      assert cs[1..] == ChunksFrom(text, size, overlap, next);
      assert text[start..] == text[start..next] + text[next..];
    }
  }

  /**
   * No text is lost: dropping the shared `overlap` characters between
   * neighbours and concatenating gives back the original text.
   */
  lemma ChunksReassemble(text: string, size: nat, overlap: nat)
    requires overlap < size
    ensures var cs := Chunks(text, size, overlap);
      (forall k :: 0 <= k < |cs| - 1 ==> |cs[k]| >= overlap) && Stitch(cs, overlap) == text
  {
    StitchFrom(text, size, overlap, 0);
  }
}
