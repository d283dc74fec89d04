/**
 * Cutting a text into chunks: the file processing service, which looks for sentence and paragraph
 * boundaries, and the embedding store, which does not.
 */
module Chunks {
  import opened Prelude

  const CHUNK_SIZE: nat := 8000
  const CHUNK_OVERLAP: nat := 500
  const SEARCH_RANGE: nat := 500
  const MAX_LENGTH: nat := 10 * 1024 * 1024

  datatype Chunk = Chunk(index: int, start: int, end: int)

  datatype TextChunk = TextChunk(index: int, start: int, end: int, text: string)

  datatype Error = EmptyContent | TooLong

  /** Where the matches of the two boundary patterns end in a text. */
  datatype Boundaries = Boundaries(paragraphEnds: string -> seq<nat>, sentenceEnds: string -> seq<nat>)

  function Distance(a: int, b: int): nat {
    if a < b then b - a else a - b
  }

  /**
   * The code as written: a boundary must be strictly closer to the target than the best position so far,
   * which starts at the target itself. No boundary ever is.
   */
  method FindBestSplitPoint(text: string, target: nat, b: Boundaries) returns (pos: int)
    ensures pos == Min(target, |text|)
  {
    if target >= |text| {
      return |text|;
    }
    var searchStart := if target < SEARCH_RANGE then 0 else target - SEARCH_RANGE;
    var searchEnd := Min(|text|, target + SEARCH_RANGE);
    var searchText := text[searchStart..searchEnd];
    var best: int := target;
    var paragraphs := b.paragraphEnds(searchText);
    for i := 0 to |paragraphs|
      invariant best == target
    {
      var abs := searchStart + paragraphs[i];
      if Distance(abs, target) < Distance(best, target) && 2 * abs <= 2 * target + SEARCH_RANGE {
        best := abs;
      }
    }
    if best == target {
      var sentences := b.sentenceEnds(searchText);
      for i := 0 to |sentences|
        invariant best == target
      {
        var abs := searchStart + sentences[i];
        if Distance(abs, target) < Distance(best, target) && 2 * abs <= 2 * target + SEARCH_RANGE {
          best := abs;
        }
      }
    }
    return Min(best, |text|);
  }

  /** How many chunks a text of length `n` has: `n / CHUNK_SIZE`, rounded up. */
  function ChunkCount(n: nat): nat {
    (n + CHUNK_SIZE - 1) / CHUNK_SIZE
  }

  function ChunkAt(n: nat, i: nat): Chunk {
    Chunk(i, CHUNK_SIZE * i, Min(CHUNK_SIZE * (i + 1), n))
  }

  /** The first `k` chunks of a text of length `n`. */
  function FirstChunks(n: nat, k: nat): seq<Chunk> {
    seq(k, i requires 0 <= i < k => ChunkAt(n, i))
  }

  lemma CountAt(n: nat, k: nat)
    requires CHUNK_SIZE * k < n <= CHUNK_SIZE * (k + 1)
    ensures ChunkCount(n) == k + 1
  {}

  method CreateChunks(text: string, b: Boundaries) returns (chunks: seq<Chunk>)
    ensures chunks == FirstChunks(|text|, ChunkCount(|text|))
  {
    chunks := [];
    var start, index := 0, 0;
    while start < |text|
      invariant start == CHUNK_SIZE * index < |text| || (text == "" && start == index == 0)
      invariant chunks == FirstChunks(|text|, index)
      decreases |text| - start
    {
      var target := start + CHUNK_SIZE;
      var end := FindBestSplitPoint(text, target, b);
      chunks := chunks + [Chunk(index, start, end)];
      assert chunks == FirstChunks(|text|, index + 1);
      index := index + 1;
      var nextStart := end - CHUNK_OVERLAP;
      start := if end < nextStart then nextStart else end;
      if start >= |text| || end >= |text| {
        CountAt(|text|, index - 1);
        break;
      }
    }
    if chunks == [] && |text| > 0 {
      chunks := chunks + [Chunk(0, 0, |text|)];
    }
  }

  method EmbedFileContent(content: string) returns (r: Result<seq<TextChunk>, Error>)
    ensures content == "" ==> r == Failure(EmptyContent)
    ensures |content| > 10_485_760 ==> r == Failure(TooLong)
    ensures content != "" && |content| <= 10_485_760 ==>
              && r.Success?
              && |r.value| == ChunkCount(|content|)
              && forall i | 0 <= i < |r.value| ::
                   var c := ChunkAt(|content|, i);
                   0 <= c.start <= c.end <= |content| &&
                   r.value[i] == TextChunk(c.index, c.start, c.end, content[c.start..c.end])
  {
    if content == "" {
      return Failure(EmptyContent);
    }
    if |content| > MAX_LENGTH {
      return Failure(TooLong);
    }
    var chunks: seq<TextChunk> := [];
    var start, index := 0, 0;
    while start < |content|
      invariant start == CHUNK_SIZE * index < |content|
      invariant |chunks| == index
      invariant forall i | 0 <= i < index ::
                  var c := ChunkAt(|content|, i);
                  0 <= c.start <= c.end <= |content| &&
                  chunks[i] == TextChunk(c.index, c.start, c.end, content[c.start..c.end])
      decreases |content| - start
    {
      var end := Min(start + CHUNK_SIZE, |content|);
      chunks := chunks + [TextChunk(index, start, end, content[start..end])];
      index := index + 1;
      var nextStart := end - CHUNK_OVERLAP;
      start := if end < nextStart then nextStart else end;
      if start >= |content| {
        CountAt(|content|, index - 1);
        break;
      }
    }
    return Success(chunks);
  }

  /** The chunks are non-empty, follow each other without gap or overlap, and cover the text. */
  lemma ChunksTile(n: nat)
    ensures var chunks := FirstChunks(n, ChunkCount(n));
            && (forall i | 0 <= i < |chunks| :: chunks[i].index == i && chunks[i].start < chunks[i].end <= n)
            && (forall i | 0 <= i < |chunks| - 1 ::
                  chunks[i].end == chunks[i + 1].start && chunks[i].end - chunks[i].start == 8000)
            && (forall i | 0 <= i < |chunks| :: chunks[i].end - chunks[i].start <= 8000)
            && (if n == 0 then chunks == [] else chunks != [] && chunks[0].start == 0 && chunks[|chunks| - 1].end == n)
  {
    var k := ChunkCount(n);
    if n > 0 {
      assert CHUNK_SIZE * (k - 1) < n <= CHUNK_SIZE * k;
    }
  }

  /** The texts of the first `k` chunks, joined. */
  function Joined(content: string, k: nat): string
    requires k <= ChunkCount(|content|)
  {
    if k == 0 then ""
    else
      var c := ChunkAt(|content|, k - 1);
      assert 0 <= c.start <= c.end <= |content|;
      Joined(content, k - 1) + content[c.start..c.end]
  }

  /** Joining the chunk texts gives the text back. */
  lemma {:induction false} JoinedIsPrefix(content: string, k: nat)
    requires k <= ChunkCount(|content|)
    ensures Joined(content, k) == content[..Min(CHUNK_SIZE * k, |content|)]
  {
    if k > 0 {
      JoinedIsPrefix(content, k - 1);
    }
  }

  lemma ChunksRestoreText(content: string)
    ensures Joined(content, ChunkCount(|content|)) == content
  {
    JoinedIsPrefix(content, ChunkCount(|content|));
    assert content[..|content|] == content;
  }
}
