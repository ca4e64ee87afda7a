/**
 * `splitContentIntoChunks` from the indexing script: cuts a long section body
 * into overlapping chunks of at most about `maxChunkSize` characters.
 *
 * Each turn of the source loop cuts one slice `[start, end)` of the content,
 * which this module calls a window. `Windows` lists the windows of the loop
 * as written; `Emitted` turns windows into the chunks the loop pushes;
 * `BackFill` is the final `forEach` that writes `totalChunks`. `Chunks` is
 * the whole function as written and `SplitContentIntoChunks` the loop that
 * computes it.
 *
 * `CoveringWindows`, `CoveringChunks` and `SplitContentIntoCoveringChunks`
 * are the corrected chunker: the loop stops after the window that reaches the
 * end of the content and has no iteration cap. The indexer uses the
 * chunker as written.
 */
module Chunker {
  import opened Text

  datatype Chunk = Chunk(content: string, chunkIndex: nat, totalChunks: nat)

  /** One turn of the loop: the slice `[start, end)` it cut and the chunk index it carried. */
  datatype Window = Window(start: nat, end: nat, index: nat)

  /** The defaults the indexer calls the chunker with. */
  const DefaultMaxChunkSize: nat := 1200
  const DefaultOverlapSize: nat := 200

  /**
   * `Math.min(overlapSize, Math.floor(maxChunkSize * 0.3))`: the largest
   * overlap not above the requested one and not above 30% of the chunk size.
   */
  function EffectiveOverlap(maxChunkSize: nat, overlapSize: nat): (overlap: nat)
    ensures overlap <= overlapSize && 10 * overlap <= 3 * maxChunkSize
    ensures overlap == overlapSize || 10 * (overlap + 1) > 3 * maxChunkSize
  {
    if overlapSize <= (3 * maxChunkSize) / 10 then overlapSize else (3 * maxChunkSize) / 10
  }

  /**
   * `Math.ceil(a / b)`, counted in strides of `b`; `CeilDivBounds` says it is
   * the least `q` with `q * b >= a`.
   */
  function CeilDiv(a: nat, b: nat): nat
    requires b > 0
    decreases a
  {
    if a == 0 then 0 else if a <= b then 1 else 1 + CeilDiv(a - b, b)
  }

  lemma {:induction false} CeilDivBounds(a: nat, b: nat)
    requires b > 0
    ensures CeilDiv(a, b) * b >= a
    ensures CeilDiv(a, b) == 0 || (CeilDiv(a, b) - 1) * b < a
    decreases a
  {
    if a > b {
      CeilDivBounds(a - b, b);
      var q := CeilDiv(a - b, b);
      assert CeilDiv(a, b) == q + 1;
      assert (q + 1) * b == q * b + b;
      assert q >= 1;
      assert q * b == (q - 1) * b + b;
    }
  }

  /** `Math.ceil(content.length / (maxChunkSize - overlapSize)) + 1`. */
  function MaxIterations(length: nat, maxChunkSize: nat, overlap: nat): (cap: nat)
    requires overlap < maxChunkSize
    ensures cap >= 1
  {
    CeilDiv(length, maxChunkSize - overlap) + 1
  }

  /**
   * The iteration cap is one more than the least number of strides of
   * `maxChunkSize - overlap` that reach the length.
   */
  lemma MaxIterationsBounds(length: nat, maxChunkSize: nat, overlap: nat)
    requires overlap < maxChunkSize
    ensures (MaxIterations(length, maxChunkSize, overlap) - 1) * (maxChunkSize - overlap) >= length
    ensures MaxIterations(length, maxChunkSize, overlap) == 1
            || (MaxIterations(length, maxChunkSize, overlap) - 2) * (maxChunkSize - overlap) < length
  {
    CeilDivBounds(length, maxChunkSize - overlap);
  }

  /**
   * Where the slice cut at `start` ends: `start + maxChunkSize`, capped at the
   * end of the content; a cut that is not at the end moves back to just after
   * the last `.` at or before it, or else to the last space at or before it,
   * but only to a point past the middle of the chunk.
   */
  function CutEnd(content: string, start: nat, maxChunkSize: nat): (end: nat)
    requires start < |content| && maxChunkSize > 0
    ensures start < end <= |content|
    ensures end <= start + maxChunkSize + 1
    ensures end == start + maxChunkSize + 1 ==> content[start + maxChunkSize] == '.'
    ensures end < |content| ==> 2 * (end - start) > maxChunkSize
    ensures end < |content| ==>
              end == start + maxChunkSize || content[end - 1] == '.' || content[end] == ' '
    ensures start + maxChunkSize >= |content| ==> end == |content|
  {
    var tentative := if start + maxChunkSize < |content| then start + maxChunkSize else |content|;
    if tentative < |content| then
      var sentenceBreak := LastIndexOf(content, '.', tentative);
      if 2 * (sentenceBreak - start) > maxChunkSize then sentenceBreak + 1
      else
        var wordBreak := LastIndexOf(content, ' ', tentative);
        if 2 * (wordBreak - start) > maxChunkSize then wordBreak else tentative
    else
      tentative
  }

  /** `Math.max(endIndex - overlapSize, startIndex + 1)`. */
  function NextStart(start: nat, end: nat, overlap: nat): (next: nat)
    requires start < end
    ensures start < next <= end
    ensures end <= next + overlap
  {
    if end - overlap > start + 1 then end - overlap else start + 1
  }

  /** A slice the loop can cut: non-empty, inside the content, at most one past the size. */
  predicate ValidWindow(content: string, maxChunkSize: nat, w: Window) {
    w.start < w.end <= |content| && w.end <= w.start + maxChunkSize + 1
    && (w.end < |content| ==> 2 * (w.end - w.start) > maxChunkSize)
  }

  /**
   * `b` is the turn after `a`: its cursor moved forward by at least one, it
   * leaves no gap after `a` and it overlaps `a` by at most `overlap`.
   */
  predicate Follows(a: Window, b: Window, overlap: nat) {
    a.start < b.start <= a.end && a.end <= b.start + overlap
  }

  /** The shape shared by every run of the loop, whatever stops it. */
  predicate Chained(content: string, maxChunkSize: nat, overlap: nat, ws: seq<Window>) {
    && (forall i :: 0 <= i < |ws| ==> ValidWindow(content, maxChunkSize, ws[i]))
    && (forall i :: 0 <= i < |ws| - 1 ==> Follows(ws[i], ws[i + 1], overlap))
  }

  /**
   * The windows of the source loop from cursor `start` and chunk index
   * `index`: it runs while the cursor is inside the content and the index is
   * below `cap`, and breaks once the next cursor would reach the end.
   */
  function Windows(content: string, maxChunkSize: nat, overlap: nat, start: nat, index: nat, cap: nat)
    : seq<Window>
    requires maxChunkSize > 0
    decreases |content| - start
  {
    if start < |content| && index < cap then
      var end := CutEnd(content, start, maxChunkSize);
      var next := NextStart(start, end, overlap);
      [Window(start, end, index)]
      + (if next >= |content| then [] else Windows(content, maxChunkSize, overlap, next, index + 1, cap))
    else
      []
  }

  /**
   * The windows of a run of the loop as written are chained, numbered from
   * `index` on and start at `start`; there is one unless the cursor is at the
   * end or the cap is reached, and no more than the cap allows or than there
   * are positions left.
   */
  lemma {:induction false} WindowsShape(content: string, maxChunkSize: nat, overlap: nat,
                                        start: nat, index: nat, cap: nat, ws: seq<Window>)
    requires maxChunkSize > 0
    requires ws == Windows(content, maxChunkSize, overlap, start, index, cap)
    ensures Chained(content, maxChunkSize, overlap, ws)
    ensures forall i :: 0 <= i < |ws| ==> ws[i].index == index + i && start <= ws[i].start
    ensures ws != [] <==> start < |content| && index < cap
    ensures ws != [] ==> ws[0].start == start && index + |ws| <= cap && start + |ws| <= |content|
    decreases |content| - start
  {
    if start < |content| && index < cap {
      var end := CutEnd(content, start, maxChunkSize);
      var next := NextStart(start, end, overlap);
      if next < |content| {
        var rest := Windows(content, maxChunkSize, overlap, next, index + 1, cap);
        WindowsShape(content, maxChunkSize, overlap, next, index + 1, cap, rest);
        assert ws == [Window(start, end, index)] + rest;
        assert forall i :: 1 <= i < |ws| ==> ws[i] == rest[i - 1];
        if rest != [] {
          assert Follows(ws[0], ws[1], overlap);
        }
      }
    }
  }

  /** The windows of the corrected loop: it stops after the window that reaches the end. */
  function CoveringWindows(content: string, maxChunkSize: nat, overlap: nat, start: nat, index: nat)
    : seq<Window>
    requires maxChunkSize > 0
    decreases |content| - start
  {
    if start < |content| then
      var end := CutEnd(content, start, maxChunkSize);
      [Window(start, end, index)]
      + (if end == |content| then []
         else CoveringWindows(content, maxChunkSize, overlap, NextStart(start, end, overlap), index + 1))
    else
      []
  }

  /**
   * The windows of the corrected loop are numbered from `index` on and start
   * at `start`; there is one unless the cursor is at the end.
   */
  lemma {:induction false} CoveringWindowsShape(content: string, maxChunkSize: nat, overlap: nat,
                                                start: nat, index: nat, ws: seq<Window>)
    requires maxChunkSize > 0
    requires ws == CoveringWindows(content, maxChunkSize, overlap, start, index)
    ensures forall i :: 0 <= i < |ws| ==> ws[i].index == index + i && start <= ws[i].start
    ensures ws != [] <==> start < |content|
    ensures ws != [] ==> ws[0].start == start && start + |ws| <= |content|
    decreases |content| - start
  {
    if start < |content| {
      var end := CutEnd(content, start, maxChunkSize);
      if end < |content| {
        var next := NextStart(start, end, overlap);
        var rest := CoveringWindows(content, maxChunkSize, overlap, next, index + 1);
        CoveringWindowsShape(content, maxChunkSize, overlap, next, index + 1, rest);
        assert ws == [Window(start, end, index)] + rest;
        assert forall i :: 1 <= i < |ws| ==> ws[i] == rest[i - 1];
      }
    }
  }

  /** The windows of the corrected loop are chained like those of the loop as written. */
  lemma {:induction false} CoveringWindowsChained(content: string, maxChunkSize: nat, overlap: nat,
                                                  start: nat, index: nat, ws: seq<Window>)
    requires maxChunkSize > 0
    requires ws == CoveringWindows(content, maxChunkSize, overlap, start, index)
    ensures Chained(content, maxChunkSize, overlap, ws)
    decreases |content| - start
  {
    if start < |content| {
      var end := CutEnd(content, start, maxChunkSize);
      if end < |content| {
        var next := NextStart(start, end, overlap);
        var rest := CoveringWindows(content, maxChunkSize, overlap, next, index + 1);
        CoveringWindowsChained(content, maxChunkSize, overlap, next, index + 1, rest);
        CoveringWindowsShape(content, maxChunkSize, overlap, next, index + 1, rest);
        assert ws == [Window(start, end, index)] + rest;
        assert forall i :: 1 <= i < |ws| ==> ws[i] == rest[i - 1];
        assert Follows(ws[0], ws[1], overlap);
      }
    }
  }

  /**
   * In the corrected loop the last window, and only the last, ends at the end
   * of the content: no window repeats the tail of the one before it.
   */
  lemma {:induction false} CoveringWindowsEnd(content: string, maxChunkSize: nat, overlap: nat,
                                              start: nat, index: nat, ws: seq<Window>)
    requires maxChunkSize > 0
    requires ws == CoveringWindows(content, maxChunkSize, overlap, start, index)
    ensures ws != [] ==> ws[|ws| - 1].end == |content|
    ensures forall i :: 0 <= i < |ws| - 1 ==> ws[i].end < |content|
    decreases |content| - start
  {
    if start < |content| {
      var end := CutEnd(content, start, maxChunkSize);
      if end < |content| {
        var rest := CoveringWindows(content, maxChunkSize, overlap, NextStart(start, end, overlap), index + 1);
        CoveringWindowsEnd(content, maxChunkSize, overlap, NextStart(start, end, overlap), index + 1, rest);
        assert ws == [Window(start, end, index)] + rest;
        assert forall i :: 1 <= i < |ws| ==> ws[i] == rest[i - 1];
      }
    }
  }

  /** Every window lies inside the content. */
  predicate InBounds(content: string, ws: seq<Window>) {
    forall i :: 0 <= i < |ws| ==> ws[i].start <= ws[i].end <= |content|
  }

  lemma ChainedInBounds(content: string, maxChunkSize: nat, overlap: nat, ws: seq<Window>)
    requires Chained(content, maxChunkSize, overlap, ws)
    ensures InBounds(content, ws)
  {
    forall i | 0 <= i < |ws| ensures ws[i].start <= ws[i].end <= |content| {
      assert ValidWindow(content, maxChunkSize, ws[i]);
    }
  }

  /** What one turn pushes for its window: the trimmed slice, unless that is empty. */
  function Emit(content: string, w: Window): seq<Chunk> {
    var chunkContent := Trim(Slice(content, w.start, w.end));
    if chunkContent != [] then [Chunk(chunkContent, w.index, 0)] else []
  }

  /** The chunks pushed for the windows `ws`, before `totalChunks` is known. */
  function Emitted(content: string, ws: seq<Window>): seq<Chunk> {
    if ws == [] then [] else Emit(content, ws[0]) + Emitted(content, ws[1..])
  }

  lemma EmittedCons(content: string, w: Window, rest: seq<Window>)
    ensures Emitted(content, [w] + rest) == Emit(content, w) + Emitted(content, rest)
  {
    var ws := [w] + rest;
    assert ws[0] == w && ws[1..] == rest;
  }

  /** Chunk `c` is the trimmed slice of window `i` and carries its index. */
  predicate FromWindow(content: string, ws: seq<Window>, c: Chunk, i: int) {
    0 <= i < |ws| && c.content == Trim(Slice(content, ws[i].start, ws[i].end)) && c.chunkIndex == ws[i].index
  }

  /** Every pushed chunk is the trimmed slice of one window and carries that window's index. */
  lemma {:induction false} EmittedFromWindows(content: string, ws: seq<Window>, k: nat)
    requires k < |Emitted(content, ws)|
    ensures exists i :: FromWindow(content, ws, Emitted(content, ws)[k], i)
  {
    var head := Emit(content, ws[0]);
    var rest := Emitted(content, ws[1..]);
    assert Emitted(content, ws) == head + rest;
    if k < |head| {
      assert FromWindow(content, ws, Emitted(content, ws)[k], 0);
    } else {
      EmittedFromWindows(content, ws[1..], k - |head|);
      var i :| FromWindow(content, ws[1..], rest[k - |head|], i);
      assert ws[1..][i] == ws[i + 1];
      assert FromWindow(content, ws, Emitted(content, ws)[k], i + 1);
    }
  }

  /** There are no more pushed chunks than windows, and every pushed chunk is non-empty. */
  lemma {:induction false} EmittedNonEmpty(content: string, ws: seq<Window>)
    ensures |Emitted(content, ws)| <= |ws|
    ensures forall k :: 0 <= k < |Emitted(content, ws)| ==>
              Emitted(content, ws)[k].content != [] && Emitted(content, ws)[k].totalChunks == 0
  {
    if ws != [] {
      EmittedNonEmpty(content, ws[1..]);
      var head := Emit(content, ws[0]);
      var rest := Emitted(content, ws[1..]);
      var all := Emitted(content, ws);
      assert all == head + rest;
      forall k | 0 <= k < |all| ensures all[k].content != [] && all[k].totalChunks == 0 {
        if k < |head| {
          assert all[k] == head[k];
        } else {
          assert all[k] == rest[k - |head|];
        }
      }
    }
  }

  /**
   * When the windows carry the indices `base`, `base + 1`, ..., the indices of
   * the pushed chunks are strictly increasing and within that range: skipping
   * a blank slice leaves a gap in the numbering and nothing else.
   */
  lemma {:induction false} EmittedIndicesIncrease(content: string, ws: seq<Window>, base: nat)
    requires forall i :: 0 <= i < |ws| ==> ws[i].index == base + i
    ensures forall k :: 0 <= k < |Emitted(content, ws)| ==>
              base <= Emitted(content, ws)[k].chunkIndex < base + |ws|
    ensures forall k :: 0 <= k < |Emitted(content, ws)| - 1 ==>
              Emitted(content, ws)[k].chunkIndex < Emitted(content, ws)[k + 1].chunkIndex
  {
    if ws != [] {
      var head := Emit(content, ws[0]);
      var rest := Emitted(content, ws[1..]);
      assert forall i :: 0 <= i < |ws[1..]| ==> ws[1..][i].index == (base + 1) + i;
      EmittedIndicesIncrease(content, ws[1..], base + 1);
      var cs := Emitted(content, ws);
      assert cs == head + rest;
      forall k | 0 <= k < |cs|
        ensures base <= cs[k].chunkIndex < base + |ws|
        ensures k < |cs| - 1 ==> cs[k].chunkIndex < cs[k + 1].chunkIndex
      {
        if k < |head| {
          assert k == 0 && cs[k].chunkIndex == base;
          if k < |cs| - 1 {
            assert cs[k + 1] == rest[0];
          }
        } else {
          assert cs[k] == rest[k - |head|];
          if k < |cs| - 1 {
            assert cs[k + 1] == rest[k - |head| + 1];
          }
        }
      }
    }
  }

  /** The final `forEach`: every chunk's `totalChunks` becomes `n`. */
  function BackFill(cs: seq<Chunk>, n: nat): (r: seq<Chunk>)
    ensures |r| == |cs|
    ensures forall k :: 0 <= k < |r| ==> r[k] == cs[k].(totalChunks := n)
  {
    seq(|cs|, k requires 0 <= k < |cs| => cs[k].(totalChunks := n))
  }

  /** `splitContentIntoChunks(content, maxChunkSize, overlapSize)` as written. */
  function Chunks(content: string, maxChunkSize: nat, overlapSize: nat): seq<Chunk>
    requires maxChunkSize > 0
  {
    if |content| <= maxChunkSize then
      [Chunk(content, 0, 1)]
    else
      var overlap := EffectiveOverlap(maxChunkSize, overlapSize);
      var pending := Emitted(content, Windows(content, maxChunkSize, overlap, 0, 0,
                                              MaxIterations(|content|, maxChunkSize, overlap)));
      BackFill(pending, |pending|)
  }

  /** The corrected chunker: the windows run to the end of the content and stop there. */
  function CoveringChunks(content: string, maxChunkSize: nat, overlapSize: nat): seq<Chunk>
    requires maxChunkSize > 0
  {
    if |content| <= maxChunkSize then
      [Chunk(content, 0, 1)]
    else
      var overlap := EffectiveOverlap(maxChunkSize, overlapSize);
      var pending := Emitted(content, CoveringWindows(content, maxChunkSize, overlap, 0, 0));
      BackFill(pending, |pending|)
  }

  /**
   * The chunks `cs` come from the windows `ws`, numbered from 0: no more
   * chunks than windows; chunk `k` is the non-empty trim of the slice of
   * window number `cs[k].chunkIndex`; the indices strictly increase; and every
   * chunk carries the final chunk count.
   */
  predicate ChunksOfWindows(content: string, ws: seq<Window>, cs: seq<Chunk>) {
    && |cs| <= |ws|
    && (forall k :: 0 <= k < |cs| ==> cs[k].content != [] && cs[k].totalChunks == |cs|)
    && (forall k :: 0 <= k < |cs| - 1 ==> cs[k].chunkIndex < cs[k + 1].chunkIndex)
    && (forall k :: 0 <= k < |cs| ==> FromWindow(content, ws, cs[k], cs[k].chunkIndex))
  }

  /** Emitting the windows of one run of the loop and back-filling the count gives such chunks. */
  lemma EmittedChunksOfWindows(content: string, ws: seq<Window>)
    requires forall i :: 0 <= i < |ws| ==> ws[i].index == i
    ensures ChunksOfWindows(content, ws, BackFill(Emitted(content, ws), |Emitted(content, ws)|))
  {
    var pending := Emitted(content, ws);
    EmittedNonEmpty(content, ws);
    EmittedIndicesIncrease(content, ws, 0);
    var cs := BackFill(pending, |pending|);
    forall k | 0 <= k < |cs| ensures FromWindow(content, ws, cs[k], cs[k].chunkIndex) {
      EmittedFromWindows(content, ws, k);
      var i :| FromWindow(content, ws, pending[k], i);
      assert FromWindow(content, ws, cs[k], i);
    }
  }

  /**
   * What `splitContentIntoChunks` promises for content longer than the chunk
   * size: the windows are chained (each cursor at least one past the previous,
   * no gap, overlap at most the clamped overlap) and inside the content, there
   * are at least one and at most as many as the iteration cap, and the chunks
   * come from them.
   */
  lemma ChunksProperties(content: string, maxChunkSize: nat, overlapSize: nat)
    requires maxChunkSize > 0 && |content| > maxChunkSize
    ensures var overlap := EffectiveOverlap(maxChunkSize, overlapSize);
            var cap := MaxIterations(|content|, maxChunkSize, overlap);
            var ws := Windows(content, maxChunkSize, overlap, 0, 0, cap);
            && Chained(content, maxChunkSize, overlap, ws)
            && InBounds(content, ws)
            && 1 <= |ws| <= cap
            && ChunksOfWindows(content, ws, Chunks(content, maxChunkSize, overlapSize))
  {
    var overlap := EffectiveOverlap(maxChunkSize, overlapSize);
    var cap := MaxIterations(|content|, maxChunkSize, overlap);
    var ws := Windows(content, maxChunkSize, overlap, 0, 0, cap);
    WindowsShape(content, maxChunkSize, overlap, 0, 0, cap, ws);
    ChainedInBounds(content, maxChunkSize, overlap, ws);
    EmittedChunksOfWindows(content, ws);
  }

  /**
   * The corrected chunker has the same chunk shape as the original, with
   * windows that reach the end of the content.
   */
  lemma CoveringChunksProperties(content: string, maxChunkSize: nat, overlapSize: nat)
    requires maxChunkSize > 0 && |content| > maxChunkSize
    ensures var overlap := EffectiveOverlap(maxChunkSize, overlapSize);
            var ws := CoveringWindows(content, maxChunkSize, overlap, 0, 0);
            && Chained(content, maxChunkSize, overlap, ws)
            && InBounds(content, ws)
            && ws != [] && ws[|ws| - 1].end == |content|
            && ChunksOfWindows(content, ws, CoveringChunks(content, maxChunkSize, overlapSize))
  {
    var overlap := EffectiveOverlap(maxChunkSize, overlapSize);
    var ws := CoveringWindows(content, maxChunkSize, overlap, 0, 0);
    CoveringWindowsShape(content, maxChunkSize, overlap, 0, 0, ws);
    CoveringWindowsChained(content, maxChunkSize, overlap, 0, 0, ws);
    CoveringWindowsEnd(content, maxChunkSize, overlap, 0, 0, ws);
    ChainedInBounds(content, maxChunkSize, overlap, ws);
    EmittedChunksOfWindows(content, ws);
  }

  /** Position `k` lies in one of the windows. */
  ghost predicate Covers(ws: seq<Window>, k: nat) {
    exists i :: 0 <= i < |ws| && ws[i].start <= k < ws[i].end
  }

  /**
   * Chained windows leave no gap: every position from the first window's start
   * to the last window's end lies in some window.
   */
  lemma {:induction false} ChainedCovers(content: string, maxChunkSize: nat, overlap: nat, ws: seq<Window>, k: nat)
    requires Chained(content, maxChunkSize, overlap, ws)
    requires ws != [] && ws[0].start <= k < ws[|ws| - 1].end
    ensures Covers(ws, k)
  {
    if k < ws[0].end {
      assert ws[0].start <= k < ws[0].end;
    } else {
      var rest := ws[1..];
      assert Follows(ws[0], ws[1], overlap);
      assert Chained(content, maxChunkSize, overlap, rest) by {
        forall i | 0 <= i < |rest| - 1 ensures Follows(rest[i], rest[i + 1], overlap) {
          assert Follows(ws[i + 1], ws[i + 2], overlap);
        }
      }
      ChainedCovers(content, maxChunkSize, overlap, rest, k);
      assert Covers(rest, k);
      var i :| 0 <= i < |rest| && rest[i].start <= k < rest[i].end;
      assert ws[i + 1] == rest[i];
    }
  }

  /**
   * The corrected chunker covers the whole content: every position lies in
   * some window.
   */
  lemma CoveringWindowsCover(content: string, maxChunkSize: nat, overlap: nat, k: nat)
    requires maxChunkSize > 0 && k < |content|
    ensures Covers(CoveringWindows(content, maxChunkSize, overlap, 0, 0), k)
  {
    var ws := CoveringWindows(content, maxChunkSize, overlap, 0, 0);
    CoveringWindowsShape(content, maxChunkSize, overlap, 0, 0, ws);
    CoveringWindowsChained(content, maxChunkSize, overlap, 0, 0, ws);
    CoveringWindowsEnd(content, maxChunkSize, overlap, 0, 0, ws);
    ChainedCovers(content, maxChunkSize, overlap, ws, k);
  }

  /** The loop as written never runs more turns than its cap. */
  lemma IterationBound(content: string, maxChunkSize: nat, overlapSize: nat)
    requires maxChunkSize > 0
    ensures var overlap := EffectiveOverlap(maxChunkSize, overlapSize);
            overlap < maxChunkSize
            && |Windows(content, maxChunkSize, overlap, 0, 0, MaxIterations(|content|, maxChunkSize, overlap))|
               <= MaxIterations(|content|, maxChunkSize, overlap)
  {
    var overlap := EffectiveOverlap(maxChunkSize, overlapSize);
    var cap := MaxIterations(|content|, maxChunkSize, overlap);
    WindowsShape(content, maxChunkSize, overlap, 0, 0, cap, Windows(content, maxChunkSize, overlap, 0, 0, cap));
  }

  /**
   * One turn of the loop as written keeps its invariant: what was pushed so
   * far, then what the window cut at `start` pushes, then what the turns after
   * it push, is what the whole run pushes.
   */
  lemma WindowsStep(content: string, maxChunkSize: nat, overlap: nat, start: nat, index: nat, cap: nat,
                    end: nat, pending: seq<Chunk>, pushed: seq<Chunk>, all: seq<Window>)
    requires maxChunkSize > 0 && start < |content| && index < cap
    requires end == CutEnd(content, start, maxChunkSize)
    requires pending + Emitted(content, Windows(content, maxChunkSize, overlap, start, index, cap))
             == Emitted(content, all)
    requires pushed == pending + Emit(content, Window(start, end, index))
    ensures NextStart(start, end, overlap) >= |content| ==> pushed == Emitted(content, all)
    ensures NextStart(start, end, overlap) < |content| ==>
              pushed + Emitted(content, Windows(content, maxChunkSize, overlap, NextStart(start, end, overlap),
                                                index + 1, cap))
              == Emitted(content, all)
  {
    var next := NextStart(start, end, overlap);
    var rest := if next >= |content| then [] else Windows(content, maxChunkSize, overlap, next, index + 1, cap);
    assert Windows(content, maxChunkSize, overlap, start, index, cap) == [Window(start, end, index)] + rest;
    EmittedCons(content, Window(start, end, index), rest);
    ConcatAssoc(pending, Emit(content, Window(start, end, index)), Emitted(content, rest));
    if next >= |content| {
      assert Emitted(content, rest) == [];
    }
  }

  /** One turn of the corrected loop keeps its invariant. */
  lemma CoveringWindowsStep(content: string, maxChunkSize: nat, overlap: nat, start: nat, index: nat,
                            end: nat, pending: seq<Chunk>, pushed: seq<Chunk>, all: seq<Window>)
    requires maxChunkSize > 0 && start < |content|
    requires end == CutEnd(content, start, maxChunkSize)
    requires pending + Emitted(content, CoveringWindows(content, maxChunkSize, overlap, start, index))
             == Emitted(content, all)
    requires pushed == pending + Emit(content, Window(start, end, index))
    ensures end == |content| ==> pushed == Emitted(content, all)
    ensures end < |content| ==>
              pushed + Emitted(content, CoveringWindows(content, maxChunkSize, overlap,
                                                        NextStart(start, end, overlap), index + 1))
              == Emitted(content, all)
  {
    var rest := if end == |content| then []
                else CoveringWindows(content, maxChunkSize, overlap, NextStart(start, end, overlap), index + 1);
    assert CoveringWindows(content, maxChunkSize, overlap, start, index) == [Window(start, end, index)] + rest;
    EmittedCons(content, Window(start, end, index), rest);
    ConcatAssoc(pending, Emit(content, Window(start, end, index)), Emitted(content, rest));
    if end == |content| {
      assert Emitted(content, rest) == [];
    }
  }

  /** The `forEach` that writes the final chunk count into every chunk. */
  method BackFillTotals(pending: seq<Chunk>) returns (chunks: seq<Chunk>)
    ensures chunks == BackFill(pending, |pending|)
  {
    chunks := pending;
    var i := 0;
    while i < |chunks|
      invariant |chunks| == |pending| && 0 <= i <= |chunks|
      invariant chunks[..i] == BackFill(pending, |pending|)[..i]
      invariant chunks[i..] == pending[i..]
    {
      chunks := chunks[i := chunks[i].(totalChunks := |chunks|)];
      i := i + 1;
    }
  }

  /** The body of one turn: push the trimmed slice unless it is empty. */
  method PushChunk(content: string, startIndex: nat, endIndex: nat, chunkIndex: nat, pending: seq<Chunk>)
    returns (pushed: seq<Chunk>)
    ensures pushed == pending + Emit(content, Window(startIndex, endIndex, chunkIndex))
  {
    var chunkContent := Trim(Slice(content, startIndex, endIndex));
    pushed := pending;
    if chunkContent != [] {
      pushed := pushed + [Chunk(chunkContent, chunkIndex, 0)];
    }
  }

  /**
   * The loop of `splitContentIntoChunks` as written, for content longer than
   * the chunk size and at most `maxIterations` turns: it pushes the chunks of
   * the windows `Windows` lists.
   */
  method PushCappedChunks(content: string, maxChunkSize: nat, overlap: nat, maxIterations: nat)
    returns (pending: seq<Chunk>)
    requires 0 < maxChunkSize < |content| && overlap < maxChunkSize
    ensures pending == Emitted(content, Windows(content, maxChunkSize, overlap, 0, 0, maxIterations))
  {
    ghost var all := Windows(content, maxChunkSize, overlap, 0, 0, maxIterations);
    pending := [];
    var startIndex: nat := 0;
    var chunkIndex: nat := 0;
    while startIndex < |content| && chunkIndex < maxIterations
      invariant pending + Emitted(content, Windows(content, maxChunkSize, overlap, startIndex, chunkIndex, maxIterations))
                == Emitted(content, all)
      invariant startIndex < |content|
      decreases |content| - startIndex
    {
      var endIndex := CutEnd(content, startIndex, maxChunkSize);
      ghost var before := pending;
      pending := PushChunk(content, startIndex, endIndex, chunkIndex, pending);
      WindowsStep(content, maxChunkSize, overlap, startIndex, chunkIndex, maxIterations, endIndex, before, pending, all);
      var nextStartIndex := NextStart(startIndex, endIndex, overlap);
      if nextStartIndex >= |content| {
        break;
      }
      startIndex := nextStartIndex;
      chunkIndex := chunkIndex + 1;
    }
  }

  /** `splitContentIntoChunks` as written, loop and cap included. */
  method SplitContentIntoChunks(content: string, maxChunkSize: nat, overlapSize: nat)
    returns (chunks: seq<Chunk>)
    requires maxChunkSize > 0
    ensures chunks == Chunks(content, maxChunkSize, overlapSize)
    ensures |content| <= maxChunkSize ==> chunks == [Chunk(content, 0, 1)]
  {
    if |content| <= maxChunkSize {
      return [Chunk(content, 0, 1)];
    }
    var overlap := EffectiveOverlap(maxChunkSize, overlapSize);
    var maxIterations := MaxIterations(|content|, maxChunkSize, overlap);
    var pending := PushCappedChunks(content, maxChunkSize, overlap, maxIterations);
    chunks := BackFillTotals(pending);
  }

  /** The corrected loop: no iteration cap; it stops after the window that reaches the end. */
  method PushCoveringChunks(content: string, maxChunkSize: nat, overlap: nat) returns (pending: seq<Chunk>)
    requires 0 < maxChunkSize < |content|
    ensures pending == Emitted(content, CoveringWindows(content, maxChunkSize, overlap, 0, 0))
  {
    ghost var all := CoveringWindows(content, maxChunkSize, overlap, 0, 0);
    pending := [];
    var startIndex: nat := 0;
    var chunkIndex: nat := 0;
    while startIndex < |content|
      invariant pending + Emitted(content, CoveringWindows(content, maxChunkSize, overlap, startIndex, chunkIndex))
                == Emitted(content, all)
      decreases |content| - startIndex
    {
      var endIndex := CutEnd(content, startIndex, maxChunkSize);
      ghost var before := pending;
      pending := PushChunk(content, startIndex, endIndex, chunkIndex, pending);
      CoveringWindowsStep(content, maxChunkSize, overlap, startIndex, chunkIndex, endIndex, before, pending, all);
      if endIndex == |content| {
        break;
      }
      startIndex := NextStart(startIndex, endIndex, overlap);
      chunkIndex := chunkIndex + 1;
    }
  }

  /** The corrected `splitContentIntoChunks`. */
  method SplitContentIntoCoveringChunks(content: string, maxChunkSize: nat, overlapSize: nat)
    returns (chunks: seq<Chunk>)
    requires maxChunkSize > 0
    ensures chunks == CoveringChunks(content, maxChunkSize, overlapSize)
    ensures |content| <= maxChunkSize ==> chunks == [Chunk(content, 0, 1)]
  {
    if |content| <= maxChunkSize {
      return [Chunk(content, 0, 1)];
    }
    var overlap := EffectiveOverlap(maxChunkSize, overlapSize);
    var pending := PushCoveringChunks(content, maxChunkSize, overlap);
    chunks := BackFillTotals(pending);
  }

  /** Emitting two runs of windows one after the other emits their chunks one after the other. */
  lemma {:induction false} EmittedAppend(content: string, a: seq<Window>, b: seq<Window>)
    ensures Emitted(content, a + b) == Emitted(content, a) + Emitted(content, b)
  {
    if a != [] {
      assert a + b == [a[0]] + (a[1..] + b);
      assert [a[0]] + a[1..] == a;
      EmittedCons(content, a[0], a[1..] + b);
      EmittedCons(content, a[0], a[1..]);
      EmittedAppend(content, a[1..], b);
    } else {
      assert a + b == b;
    }
  }

  /** The chunk a window pushes is among the pushed chunks: chunk `j` here. */
  lemma EmittedHas(content: string, ws: seq<Window>, i: nat, c: Chunk) returns (j: nat)
    requires i < |ws| && Emit(content, ws[i]) == [c]
    ensures j < |Emitted(content, ws)| && Emitted(content, ws)[j] == c
  {
    var before, after := ws[..i], ws[i + 1..];
    assert ws == before + ([ws[i]] + after);
    EmittedAppend(content, before, [ws[i]] + after);
    EmittedCons(content, ws[i], after);
    j := |Emitted(content, before)|;
  }

  /** Window `i` pushes a chunk when its trimmed slice is not empty: chunk `j` here. */
  lemma EmittedHasWindow(content: string, ws: seq<Window>, i: nat) returns (j: nat)
    requires i < |ws| && Trim(Slice(content, ws[i].start, ws[i].end)) != []
    ensures j < |Emitted(content, ws)|
    ensures Emitted(content, ws)[j].content == Trim(Slice(content, ws[i].start, ws[i].end))
  {
    var w := ws[i];
    assert Emit(content, w) == [Chunk(Trim(Slice(content, w.start, w.end)), w.index, 0)];
    j := EmittedHas(content, ws, i, Chunk(Trim(Slice(content, w.start, w.end)), w.index, 0));
  }

  /** A character that is not whitespace inside window `i` reaches the chunk that window pushes. */
  lemma WindowKeepsText(content: string, ws: seq<Window>, i: nat, k: nat) returns (j: nat)
    requires i < |ws| && ws[i].start <= k < ws[i].end <= |content| && !IsWhitespace(content[k])
    ensures j < |Emitted(content, ws)| && content[k] in Emitted(content, ws)[j].content
  {
    var slice := Slice(content, ws[i].start, ws[i].end);
    assert slice == content[ws[i].start..ws[i].end];
    var p := k - ws[i].start;
    assert slice[p] == content[k];
    TrimKeeps(slice, p);
    j := EmittedHasWindow(content, ws, i);
  }

  /**
   * No text is lost by the corrected chunker: every character of the content
   * that is not whitespace appears in some chunk.
   */
  lemma CoveringChunksKeepText(content: string, maxChunkSize: nat, overlapSize: nat, k: nat)
    requires maxChunkSize > 0 && k < |content| && !IsWhitespace(content[k])
    ensures exists j :: 0 <= j < |CoveringChunks(content, maxChunkSize, overlapSize)|
                        && content[k] in CoveringChunks(content, maxChunkSize, overlapSize)[j].content
  {
    var cs := CoveringChunks(content, maxChunkSize, overlapSize);
    if |content| <= maxChunkSize {
      assert content[k] in cs[0].content;
    } else {
      var overlap := EffectiveOverlap(maxChunkSize, overlapSize);
      var ws := CoveringWindows(content, maxChunkSize, overlap, 0, 0);
      CoveringWindowsCover(content, maxChunkSize, overlap, k);
      var i :| 0 <= i < |ws| && ws[i].start <= k < ws[i].end;
      CoveringWindowsChained(content, maxChunkSize, overlap, 0, 0, ws);
      assert ValidWindow(content, maxChunkSize, ws[i]);
      var j := WindowKeepsText(content, ws, i, k);
      assert cs[j].content == Emitted(content, ws)[j].content;
    }
  }

  /**
   * No chunk pushed for windows that end by `e` contains a character absent
   * from the content before `e`.
   */
  lemma {:induction false} EmittedAvoids(content: string, ws: seq<Window>, e: nat, c: char)
    requires e <= |content| && c !in content[..e]
    requires forall i :: 0 <= i < |ws| ==> ws[i].end <= e
    ensures forall j :: 0 <= j < |Emitted(content, ws)| ==> c !in Emitted(content, ws)[j].content
  {
    if ws != [] {
      EmittedAvoids(content, ws[1..], e, c);
      var slice := Slice(content, ws[0].start, ws[0].end);
      assert c !in slice by {
        if ws[0].start < ws[0].end {
          forall i | 0 <= i < |slice| ensures slice[i] != c {
            assert slice[i] == content[..e][ws[0].start + i];
          }
        }
      }
      TrimChars(slice);
      var head: seq<Chunk> := Emit(content, ws[0]);
      var rest: seq<Chunk> := Emitted(content, ws[1..]);
      var cs: seq<Chunk> := Emitted(content, ws);
      assert cs == head + rest;
      forall j | 0 <= j < |cs| ensures c !in cs[j].content {
        if j >= |head| {
          assert cs[j] == rest[j - |head|];
        }
      }
    }
  }

  /** A window whose slice is already trimmed pushes that slice as it is. */
  lemma EmitWhole(content: string, w: Window)
    requires w.start < w.end <= |content|
    requires !IsWhitespace(content[w.start]) && !IsWhitespace(content[w.end - 1])
    ensures Emit(content, w) == [Chunk(content[w.start..w.end], w.index, 0)]
  {
    var slice := content[w.start..w.end];
    assert slice[0] == content[w.start] && slice[|slice| - 1] == content[w.end - 1];
    TrimOfTrimmed(slice);
  }

  /**
   * A cut that is not at the end of the content ends just after the last
   * period at or before `start + maxChunkSize` when that period is past the
   * middle of the chunk.
   */
  lemma CutAfterPeriod(content: string, start: nat, maxChunkSize: nat, period: nat)
    requires 0 < maxChunkSize && start + maxChunkSize < |content|
    requires start < period <= start + maxChunkSize && 2 * (period - start) > maxChunkSize
    requires content[period] == '.'
    requires forall j :: period < j <= start + maxChunkSize ==> content[j] != '.'
    ensures CutEnd(content, start, maxChunkSize) == period + 1
  {
    var k := LastIndexOf(content, '.', start + maxChunkSize);
    assert k >= period;
  }

  /**
   * With no period past the middle of the chunk, a cut not at the end moves
   * back to the last space at or before `start + maxChunkSize`, when that
   * space lies past the middle; the space itself starts the next slice.
   */
  lemma CutAtSpace(content: string, start: nat, maxChunkSize: nat, space: nat)
    requires 0 < maxChunkSize && start + maxChunkSize < |content|
    requires forall j :: start < j <= start + maxChunkSize && 2 * (j - start) > maxChunkSize ==> content[j] != '.'
    requires start < space <= start + maxChunkSize && 2 * (space - start) > maxChunkSize
    requires content[space] == ' '
    requires forall j :: space < j <= start + maxChunkSize ==> content[j] != ' '
    ensures CutEnd(content, start, maxChunkSize) == space
  {
    var k := LastIndexOf(content, ' ', start + maxChunkSize);
    assert k >= space;
  }

  /** With no period and no space to cut at, a cut not at the end is `maxChunkSize` long. */
  lemma CutAtSize(content: string, start: nat, maxChunkSize: nat)
    requires 0 < maxChunkSize && start + maxChunkSize < |content|
    requires forall j :: 0 <= j <= start + maxChunkSize ==> content[j] != '.' && content[j] != ' '
    ensures CutEnd(content, start, maxChunkSize) == start + maxChunkSize
  {
    assert LastIndexOf(content, '.', start + maxChunkSize) == -1;
    assert LastIndexOf(content, ' ', start + maxChunkSize) == -1;
  }

  /** One turn of the loop as written, spelled out. */
  lemma WindowsTurn(content: string, maxChunkSize: nat, overlap: nat, start: nat, index: nat, cap: nat,
                    end: nat, rest: seq<Window>)
    requires maxChunkSize > 0 && start < |content| && index < cap
    requires end == CutEnd(content, start, maxChunkSize)
    requires NextStart(start, end, overlap) >= |content| ==> rest == []
    requires NextStart(start, end, overlap) < |content| ==>
               rest == Windows(content, maxChunkSize, overlap, NextStart(start, end, overlap), index + 1, cap)
    ensures Windows(content, maxChunkSize, overlap, start, index, cap) == [Window(start, end, index)] + rest
  {
  }

  /** With the default sizes the overlap is 200 and the cap on 3000 characters is 4 turns. */
  lemma DefaultCapFor3000()
    ensures EffectiveOverlap(DefaultMaxChunkSize, DefaultOverlapSize) == 200
    ensures MaxIterations(3000, DefaultMaxChunkSize, 200) == 4
  {
    assert CeilDiv(1000, 1000) == 1;
    assert CeilDiv(2000, 1000) == 2;
    assert CeilDiv(3000, 1000) == 3;
  }

  /**
   * 3000 characters with a period at 601, 1201, 1603 and 2203, `a` up to
   * 2203 and `b` from 2204 on.
   */
  function TailExample(): (s: string)
    ensures |s| == 3000
  {
    seq(3000, i => if i == 601 || i == 1201 || i == 1603 || i == 2203 then '.' else if i < 2204 then 'a' else 'b')
  }

  /** Every cut of the loop on `TailExample` ends just after a period. */
  lemma TailExampleCuts(s: string)
    requires s == TailExample()
    ensures CutEnd(s, 0, 1200) == 602 && CutEnd(s, 402, 1200) == 1202
    ensures CutEnd(s, 1002, 1200) == 1604 && CutEnd(s, 1404, 1200) == 2204
  {
    CutAfterPeriod(s, 0, 1200, 601);
    CutAfterPeriod(s, 402, 1200, 1201);
    CutAfterPeriod(s, 1002, 1200, 1603);
    CutAfterPeriod(s, 1404, 1200, 2203);
  }

  /**
   * The loop as written on `TailExample`: every turn ends just after a
   * period, so the cursor advances by 600 instead of 1000, and the four turns
   * the cap allows end at 2204.
   */
  lemma TailExampleWindows(s: string)
    requires s == TailExample()
    ensures Windows(s, DefaultMaxChunkSize, 200, 0, 0, 4)
            == [Window(0, 602, 0), Window(402, 1202, 1), Window(1002, 1604, 2), Window(1404, 2204, 3)]
  {
    TailExampleCuts(s);
    var w3 := [Window(1404, 2204, 3)];
    WindowsTurn(s, 1200, 200, 1404, 3, 4, 2204, []);
    WindowsTurn(s, 1200, 200, 1002, 2, 4, 1604, w3);
    WindowsTurn(s, 1200, 200, 402, 1, 4, 1202, [Window(1002, 1604, 2)] + w3);
    WindowsTurn(s, 1200, 200, 0, 0, 4, 602, [Window(402, 1202, 1), Window(1002, 1604, 2)] + w3);
  }

  /**
   * The iteration cap of `splitContentIntoChunks` as written drops text: the
   * 796 characters `b` at the end of `TailExample` appear in no chunk, so
   * they never reach the search index.
   */
  lemma CapDropsTail(s: string)
    requires s == TailExample()
    ensures s[2999] == 'b'
    ensures forall j :: 0 <= j < |Chunks(s, DefaultMaxChunkSize, DefaultOverlapSize)| ==>
              'b' !in Chunks(s, DefaultMaxChunkSize, DefaultOverlapSize)[j].content
  {
    DefaultCapFor3000();
    TailExampleWindows(s);
    var ws := Windows(s, DefaultMaxChunkSize, 200, 0, 0, 4);
    assert 'b' !in s[..2204] by {
      forall i | 0 <= i < 2204 ensures s[..2204][i] != 'b' {
        assert s[..2204][i] == s[i];
      }
    }
    EmittedAvoids(s, ws, 2204, 'b');
  }

  /** 3000 times the letter `a`: no period and no space to cut at. */
  function RunExample(): (s: string)
    ensures |s| == 3000
  {
    seq(3000, i => 'a')
  }

  /** With no period and no space, the first two cuts on `RunExample` are 1200 long. */
  lemma RunExampleCuts(s: string)
    requires s == RunExample()
    ensures CutEnd(s, 0, 1200) == 1200 && CutEnd(s, 1000, 1200) == 2200
  {
    assert forall j :: 0 <= j < |s| ==> s[j] == 'a';
    CutAtSize(s, 0, 1200);
    CutAtSize(s, 1000, 1200);
  }

  /** The turns of the loop as written on 3000 characters whose first two cuts are 1200 long. */
  lemma RunWindows(s: string)
    requires |s| == 3000 && CutEnd(s, 0, 1200) == 1200 && CutEnd(s, 1000, 1200) == 2200
    ensures Windows(s, DefaultMaxChunkSize, 200, 0, 0, 4)
            == [Window(0, 1200, 0), Window(1000, 2200, 1), Window(2000, 3000, 2), Window(2800, 3000, 3)]
  {
    var w3 := [Window(2800, 3000, 3)];
    WindowsTurn(s, 1200, 200, 2800, 3, 4, 3000, []);
    WindowsTurn(s, 1200, 200, 2000, 2, 4, 3000, w3);
    WindowsTurn(s, 1200, 200, 1000, 1, 4, 2200, [Window(2000, 3000, 2)] + w3);
    WindowsTurn(s, 1200, 200, 0, 0, 4, 1200, [Window(1000, 2200, 1), Window(2000, 3000, 2)] + w3);
  }

  /**
   * The loop as written on `RunExample`: the third turn reaches the end, but
   * the loop only stops when the next cursor does, so a fourth turn cuts
   * `[2800, 3000)` again, inside the third window.
   */
  lemma RunExampleWindows(s: string)
    requires s == RunExample()
    ensures Windows(s, DefaultMaxChunkSize, 200, 0, 0, 4)
            == [Window(0, 1200, 0), Window(1000, 2200, 1), Window(2000, 3000, 2), Window(2800, 3000, 3)]
  {
    RunExampleCuts(s);
    RunWindows(s);
  }

  /**
   * The loop as written pushes a redundant last chunk: on `RunExample` the
   * fourth chunk is the last 200 characters, which the third chunk already
   * ends with.
   */
  lemma RedundantTailChunk(s: string)
    requires s == RunExample()
    ensures |Chunks(s, DefaultMaxChunkSize, DefaultOverlapSize)| == 4
    ensures Chunks(s, DefaultMaxChunkSize, DefaultOverlapSize)[2].content == s[2000..]
    ensures Chunks(s, DefaultMaxChunkSize, DefaultOverlapSize)[3].content == s[2800..]
  {
    DefaultCapFor3000();
    RunExampleWindows(s);
    var w0, w1, w2, w3 := Window(0, 1200, 0), Window(1000, 2200, 1), Window(2000, 3000, 2), Window(2800, 3000, 3);
    EmitWhole(s, w0);
    EmitWhole(s, w1);
    EmitWhole(s, w2);
    EmitWhole(s, w3);
    EmittedCons(s, w3, []);
    EmittedCons(s, w2, [w3]);
    EmittedCons(s, w1, [w2, w3]);
    EmittedCons(s, w0, [w1, w2, w3]);
    assert [w0] + [w1, w2, w3] == [w0, w1, w2, w3];
    assert [w1] + [w2, w3] == [w1, w2, w3];
    assert [w2] + [w3] == [w2, w3];
    assert [w3] + [] == [w3];
  }
}
