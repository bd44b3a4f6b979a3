/**
 Chunks of a fixed size (`FixedSizeChunker.Chunk` and `mergeSmallChunks` of `internal/biz/rag/chunk.go`).

 A window slides over the text; it moves by its size less the overlap, and the last one reaches the end.
 If the last window is too short it is merged into the one before.

 A text is a sequence of characters, as `[]rune` is.

 The text can be put together again from its windows, and exactly then is nothing lost when the overlap
 is not negative or one window is enough.
 */
module FixedSize {

  datatype Options = Options(chunkSize: int, overlapSize: int, minChunkSize: int)

  datatype Chunk = Chunk(content: string, index: nat)

  const DEFAULT_OPTIONS := Options(512, 128, 100)

  /** How far the window moves. An overlap of the whole window or more counts as none. */
  function StepOf(size: int, overlap: int): (step: int)
    requires size > 0
    ensures step > 0
  {
    if size - overlap <= 0 then size else size - overlap
  }

  /** The windows from `start` on; the last one reaches the end of the text. */
  function Windows(text: string, start: nat, size: nat, step: nat): (windows: seq<string>)
    requires size > 0 && step > 0 && start < |text|
    ensures windows != []
    decreases |text| - start
  {
    if start + size >= |text| then [text[start..]]
    else if start + step < |text| then [text[start..start + size]] + Windows(text, start + step, size, step)
    else [text[start..start + size]]
  }

  function MergeTail(chunks: seq<Chunk>, minSize: int): seq<Chunk> {
    var n := |chunks|;
    if n <= 1 || |chunks[n - 1].content| >= minSize then chunks
    else chunks[..n - 2] + [chunks[n - 2].(content := chunks[n - 2].content + "\n" + chunks[n - 1].content)]
  }

  method MergeSmallChunks(chunks: seq<Chunk>, minSize: int) returns (result: seq<Chunk>)
    ensures result == MergeTail(chunks, minSize)
  {
    if |chunks| <= 1 {
      return chunks;
    }
    result := [];
    for i := 0 to |chunks|
      invariant i < |chunks| ==> result == chunks[..i]
      invariant i == |chunks| ==> result == MergeTail(chunks, minSize)
    {
      if i == |chunks| - 1 && |chunks[i].content| < minSize {
        var last := |result| - 1;
        var prev := result[last];
        result := result[last := prev.(content := prev.content + "\n" + chunks[i].content)];
      } else {
        result := result + [chunks[i]];
      }
    }
  }

  /** The chunks have these contents and are numbered from 0. */
  ghost predicate Numbered(chunks: seq<Chunk>, contents: seq<string>) {
    |chunks| == |contents| && forall i :: 0 <= i < |chunks| ==> chunks[i] == Chunk(contents[i], i)
  }

  lemma WindowsStep(text: string, start: nat, size: nat, step: nat)
    requires size > 0 && step > 0 && start < |text|
    ensures var end := if start + size > |text| then |text| else start + size;
            Windows(text, start, size, step) ==
            if end < |text| && start + step < |text| then [text[start..end]] + Windows(text, start + step, size, step)
            else [text[start..end]]
  {
    assert text[start..] == text[start..|text|];
  }

  lemma Regroup(contents: seq<string>, content: string, more: seq<string>)
    ensures contents + ([content] + more) == contents + [content] + more
    ensures contents + [] == contents
  {
  }

  lemma NothingNumbered()
    ensures Numbered([], [])
  {
  }

  lemma NumberOneMore(chunks: seq<Chunk>, contents: seq<string>, content: string)
    requires Numbered(chunks, contents)
    ensures Numbered(chunks + [Chunk(content, |chunks|)], contents + [content])
  {
  }

  /** The sliding of the window. */
  method Slide(text: string, size: nat, step: nat) returns (chunks: seq<Chunk>)
    requires size > 0 && step > 0 && text != ""
    ensures Numbered(chunks, Windows(text, 0, size, step))
  {
    hide Windows, Numbered;
    ghost var windows := Windows(text, 0, size, step);
    ghost var contents: seq<string> := [];
    var total := |text|;
    chunks := [];
    var start: nat := 0;
    NothingNumbered();
    while start < total
      invariant Numbered(chunks, contents)
      invariant contents + (if start < total then Windows(text, start, size, step) else []) == windows
      decreases total - start
    {
      var end := start + size;
      if end > total {
        end := total;
      }
      WindowsStep(text, start, size, step);
      NumberOneMore(chunks, contents, text[start..end]);
      chunks := chunks + [Chunk(text[start..end], |chunks|)];
      Regroup(contents, text[start..end], if start + step < total then Windows(text, start + step, size, step) else []);
      contents := contents + [text[start..end]];
      if end >= total {
        break;
      }
      start := start + step;
    }
    assert contents == windows;
  }

  /**
   What merging a short last chunk does: unless it is long enough or the only one, its text follows the text of the
   chunk before it on a new line, and that chunk keeps its number.
   */
  lemma ShortTailIsMerged(chunks: seq<Chunk>, contents: seq<string>, minSize: int)
    requires Numbered(chunks, contents)
    ensures var n, r := |chunks|, MergeTail(chunks, minSize);
            if n <= 1 || |contents[n - 1]| >= minSize then r == chunks
            else
              && |r| == n - 1 && r[..n - 2] == chunks[..n - 2]
              && r[n - 2] == Chunk(contents[n - 2] + "\n" + contents[n - 1], n - 2)
  {
  }

  method ChunkText(text: string, options: Options) returns (chunks: seq<Chunk>)
    ensures text == "" ==> chunks == []
    ensures text != "" ==>
              var o := if options.chunkSize <= 0 then Options(512, 128, 100) else options;
              exists all :: Numbered(all, Windows(text, 0, o.chunkSize, StepOf(o.chunkSize, o.overlapSize))) &&
                            chunks == if |all| > 1 && o.minChunkSize > 0 then MergeTail(all, o.minChunkSize) else all
  {
    hide Windows, StepOf, Numbered;
    var o := options;
    if o.chunkSize <= 0 {
      o := DEFAULT_OPTIONS;
    }
    if |text| == 0 {
      return [];
    }
    chunks := Slide(text, o.chunkSize, StepOf(o.chunkSize, o.overlapSize));
    if |chunks| > 1 && o.minChunkSize > 0 {
      chunks := MergeSmallChunks(chunks, o.minChunkSize);
    }
  }

  // ----- What the windows promise -----

  /** Where the k-th window lies. */
  lemma {:induction false} WindowAt(text: string, start: nat, size: nat, step: nat, k: nat)
    requires size > 0 && step > 0 && start < |text| && k < |Windows(text, start, size, step)|
    ensures start + k * step < |text|
    ensures var from := start + k * step;
            Windows(text, start, size, step)[k] == text[from..if from + size < |text| then from + size else |text|]
    ensures k + 1 < |Windows(text, start, size, step)| ==> start + k * step + size < |text|
    decreases k
  {
    if k > 0 {
      WindowAt(text, start + step, size, step, k - 1);
      assert start + step + (k - 1) * step == start + k * step;
    }
  }

  lemma {:induction false} WindowsShare(text: string, size: nat, step: nat, k: nat)
    requires 0 < step <= size && text != "" && k + 1 < |Windows(text, 0, size, step)|
    ensures var windows := Windows(text, 0, size, step);
            && |windows[k]| == size && |windows[k + 1]| >= size - step
            && windows[k][step..] == windows[k + 1][..size - step]
  {
    hide Windows;
    WindowAt(text, 0, size, step, k);
    WindowAt(text, 0, size, step, k + 1);
    NextMultiple(0, k, step);
    var from := k * step;
    SharedPart(text, from, size, step, if from + step + size < |text| then from + step + size else |text|);
  }

  /** The last window reaches the end of the text, or the next one would start behind it. */
  lemma {:induction false} LastWindowEnds(text: string, start: nat, size: nat, step: nat)
    requires size > 0 && step > 0 && start < |text|
    ensures var n := |Windows(text, start, size, step)|;
            start + (n - 1) * step + size >= |text| || start + n * step >= |text|
    decreases |text| - start
  {
    if start + size < |text| && start + step < |text| {
      LastWindowEnds(text, start + step, size, step);
      var n := |Windows(text, start + step, size, step)|;
      NextMultiple(start, n - 1, step);
      NextMultiple(start, n, step);
    }
  }

  /**
   Where the windows lie: each starts `size` less the overlap after the one before, and they share exactly the
   overlap. An overlap of the window or more counts as none.
   */
  lemma {:induction false} WindowsOverlap(text: string, size: nat, overlap: int, k: nat)
    requires size > 0 && text != "" && k < |Windows(text, 0, size, StepOf(size, overlap))|
    ensures var step, windows := if overlap < size then size - overlap else size,
                                 Windows(text, 0, size, StepOf(size, overlap));
            && k * step < |text|
            && (windows[k] == if k * step + size < |text| then text[k * step..k * step + size] else text[k * step..])
            && (k + 1 < |windows| ==> k * step + size < |text|)
            && (k + 1 == |windows| ==> k * step + size >= |text| || (k + 1) * step >= |text|)
    ensures var windows := Windows(text, 0, size, StepOf(size, overlap));
            0 <= overlap < size && k + 1 < |windows| ==>
              |windows[k + 1]| >= overlap && windows[k][size - overlap..] == windows[k + 1][..overlap]
  {
    hide Windows;
    var step := StepOf(size, overlap);
    WindowAt(text, 0, size, step, k);
    LastWindowEnds(text, 0, size, step);
    assert text[k * step..|text|] == text[k * step..];
    if 0 <= overlap < size && k + 1 < |Windows(text, 0, size, step)| { WindowsShare(text, size, step, k); }
  }

  lemma SharedPart(text: string, from: nat, size: nat, step: nat, end: nat)
    requires step <= size && from + size <= end <= |text| && from + step <= end
    ensures text[from..from + size][step..] == text[from + step..end][..size - step]
  {
  }

  /** The windows laid over each other. */
  function Stitch(windows: seq<string>, step: nat): string
    requires forall i :: 0 <= i < |windows| - 1 ==> |windows[i]| >= step
  {
    if windows == [] then "" else if |windows| == 1 then windows[0]
    else windows[0][..step] + Stitch(windows[1..], step)
  }

  /** With an overlap of 0 or more the text can be put together again from its windows. */
  lemma {:induction false} WindowsRebuildText(text: string, start: nat, size: nat, step: nat)
    requires 0 < step <= size && start < |text|
    ensures var windows := Windows(text, start, size, step);
            && (forall i :: 0 <= i < |windows| ==> |windows[i]| <= size)
            && (forall i :: 0 <= i < |windows| - 1 ==> |windows[i]| >= step)
            && Stitch(windows, step) == text[start..]
    decreases |text| - start
  {
    hide Windows;
    WindowsStep(text, start, size, step);
    if start + size < |text| {
      WindowsRebuildText(text, start + step, size, step);
      var rest := Windows(text, start + step, size, step);
      assert ([text[start..start + size]] + rest)[1..] == rest;
      assert text[start..] == text[start..start + size][..step] + text[start + step..];
    }
  }

  /** Position `p` of the text lies in some window. */
  ghost predicate Covered(text: string, start: nat, size: nat, step: nat, p: nat)
    requires size > 0 && step > 0 && start < |text|
  {
    exists k :: InWindow(text, start, size, step, k, p)
  }

  ghost predicate InWindow(text: string, start: nat, size: nat, step: nat, k: int, p: nat)
    requires size > 0 && step > 0 && start < |text|
  {
    && 0 <= k < |Windows(text, start, size, step)|
    && start + k * step <= p < start + k * step + |Windows(text, start, size, step)[k]|
  }

  lemma {:induction false} CoverOne(text: string, start: nat, size: nat, step: nat, p: nat)
    requires 0 < step <= size && start <= p < |text|
    ensures Covered(text, start, size, step, p)
    decreases |text| - start
  {
    if start + size >= |text| || p < start + size {
      assert InWindow(text, start, size, step, 0, p);
    } else {
      CoverOne(text, start + step, size, step, p);
      var k :| InWindow(text, start + step, size, step, k, p);
      NextMultiple(start, k, step);
      assert InWindow(text, start, size, step, k + 1, p);
    }
  }

  lemma NextMultiple(start: nat, k: int, step: nat)
    ensures start + step + k * step == start + (k + 1) * step
    ensures k >= 1 ==> k * step >= step
  {
    assert (k + 1) * step == k * step + step;
    assert k >= 1 ==> (k - 1) * step >= 0;
  }

  /** A negative overlap drops the characters between two windows: exactly then is text lost. */
  lemma NothingLostIff(text: string, size: nat, overlap: int)
    requires size > 0 && text != ""
    ensures (forall p :: 0 <= p < |text| ==> Covered(text, 0, size, StepOf(size, overlap), p)) <==>
            overlap >= 0 || |text| <= size
  {
    var step := StepOf(size, overlap);
    if overlap >= 0 {
      forall p | 0 <= p < |text| ensures Covered(text, 0, size, step, p) { CoverOne(text, 0, size, step, p); }
    } else if |text| <= size {
      forall p | 0 <= p < |text| ensures Covered(text, 0, size, step, p) { assert InWindow(text, 0, size, step, 0, p); }
    } else {
      forall k ensures !InWindow(text, 0, size, step, k, size) {
        if 0 <= k < |Windows(text, 0, size, step)| {
          WindowAt(text, 0, size, step, k);
          NextMultiple(0, k, step);
        }
      }
      assert !Covered(text, 0, size, step, size);
    }
  }
}
