/** The sliding-window chunker. */
module Chunker {
  import opened Common

  datatype Chunk = Chunk(document: string, text: string, start: nat, end: nat, workspace: string)

  datatype Settings = Settings(size: int, overlap: int)

  /** Settings the constructor accepts. */
  predicate Accepted(s: Settings)
  {
    s.size > 0 && 0 <= s.overlap < s.size
  }

  /** The first chunk followed by every later chunk without its first `overlap` characters. */
  ghost function Rejoined(chunks: seq<Chunk>, overlap: nat): string
  {
    if chunks == [] then ""
    else
      var last := chunks[|chunks| - 1].text;
      if |chunks| == 1 then last
      else Rejoined(chunks[..|chunks| - 1], overlap) + if overlap <= |last| then last[overlap..] else ""
  }

  /** A later chunk starts with the last `overlap` characters of the one before and adds something. */
  ghost predicate Overlaps(a: Chunk, b: Chunk, overlap: nat)
  {
    && overlap <= |a.text| && overlap < |b.text|
    && a.text[|a.text| - overlap..] == b.text[..overlap]
    && b.start + overlap == a.end
  }

  /** x / step, rounded up, and 0 for what is not positive. */
  function Ceiling(x: int, step: int): nat
    requires step > 0
    decreases if x > 0 then x else 0
  {
    if x <= 0 then 0 else 1 + Ceiling(x - step, step)
  }

  /** The rounded-up quotient is the least number of steps that reaches x. */
  lemma {:induction false} CeilingLeast(x: int, step: int)
    requires step > 0
    ensures var m := Ceiling(x, step); x <= m * step && (m > 0 ==> (m - 1) * step < x)
    decreases if x > 0 then x else 0
  {
    if x > 0 {
      CeilingLeast(x - step, step);
      var m := Ceiling(x - step, step);
      assert (m + 1) * step == m * step + step;
      if m > 0 {
        assert (m - 1) * step == m * step - step;
      } else {
        assert m * step == 0;
      }
    }
  }

  /** How many windows cover n characters. */
  function Count(n: nat, s: Settings): nat
    requires Accepted(s)
  {
    if n == 0 then 0 else 1 + Ceiling(n - s.size, s.size - s.overlap)
  }

  ghost predicate IsChunk(content: string, s: Settings, path: string, workspace: string, i: nat, c: Chunk)
    requires Accepted(s)
  {
    && c.start == i * (s.size - s.overlap) && c.start <= c.end <= |content|
    && c.end == (if c.start + s.size < |content| then c.start + s.size else |content|)
    && c.text == content[c.start..c.end] && c.document == path && c.workspace == workspace
  }

  /** What a window after a full one adds. */
  lemma NextWindow(content: string, s: Settings, path: string, workspace: string, i: nat, a: Chunk, b: Chunk)
    requires Accepted(s) && IsChunk(content, s, path, workspace, i, a) && IsChunk(content, s, path, workspace, i + 1, b)
    requires a.end < |content|
    ensures Overlaps(a, b, s.overlap) && content[..a.end] + b.text[s.overlap..] == content[..b.end]
  {
    var step := s.size - s.overlap;
    assert b.start == a.start + step by {
      assert (i + 1) * step == i * step + step;
    }
    assert a.text[|a.text| - s.overlap..] == content[b.start..a.end];
    assert b.text[..s.overlap] == content[b.start..a.end];
    assert b.text[s.overlap..] == content[a.end..b.end];
    assert content[..a.end] + content[a.end..b.end] == content[..b.end];
  }

  /** The windows so far, which rejoin to the content up to the end of the last. */
  ghost predicate Sliced(content: string, s: Settings, path: string, workspace: string, chunks: seq<Chunk>)
    requires Accepted(s)
  {
    && (forall i :: 0 <= i < |chunks| ==> IsChunk(content, s, path, workspace, i, chunks[i]))
    && (forall i :: 0 <= i < |chunks| - 1 ==> Overlaps(chunks[i], chunks[i + 1], s.overlap))
    && (chunks != [] ==> Rejoined(chunks, s.overlap) == content[..chunks[|chunks| - 1].end])
  }

  lemma AddWindow(content: string, s: Settings, path: string, workspace: string, chunks: seq<Chunk>, c: Chunk)
    requires Accepted(s) && Sliced(content, s, path, workspace, chunks)
    requires IsChunk(content, s, path, workspace, |chunks|, c)
    requires chunks != [] ==> chunks[|chunks| - 1].end < |content|
    requires chunks == [] ==> c.start == 0
    ensures Sliced(content, s, path, workspace, chunks + [c])
  {
    hide IsChunk, Overlaps;
    var all := chunks + [c];
    assert all[..|chunks|] == chunks;
    if chunks != [] {
      NextWindow(content, s, path, workspace, |chunks| - 1, chunks[|chunks| - 1], c);
      OverlapFits(chunks[|chunks| - 1], c, s.overlap);
    } else {
      FirstWindow(content, s, path, workspace, c);
    }
  }

  lemma OverlapFits(a: Chunk, b: Chunk, overlap: nat)
    requires Overlaps(a, b, overlap)
    ensures overlap <= |b.text|
  {
  }

  lemma FirstWindow(content: string, s: Settings, path: string, workspace: string, c: Chunk)
    requires Accepted(s) && IsChunk(content, s, path, workspace, 0, c) && c.start == 0
    ensures c.text == content[..c.end]
  {
  }

  /** Slices content into windows that rejoin to it, neighbours sharing exactly the overlap. */
  method Split(s: Settings, content: string, path: string, workspace: string) returns (chunks: seq<Chunk>)
    requires Accepted(s)
    ensures Rejoined(chunks, s.overlap) == content
    ensures |chunks| == Count(|content|, s)
    ensures forall i :: 0 <= i < |chunks| ==> IsChunk(content, s, path, workspace, i, chunks[i])
    ensures forall i :: 0 <= i < |chunks| - 1 ==> Overlaps(chunks[i], chunks[i + 1], s.overlap)
  {
    hide Overlaps, Rejoined;
    chunks := [];
    if content == "" {
      RejoinedNothing(s.overlap);
      return;
    }
    var step, start, n := s.size - s.overlap, 0, |content|;
    while start < n
      invariant start == |chunks| * step && start < n
      invariant Sliced(content, s, path, workspace, chunks)
      invariant chunks != [] ==> chunks[|chunks| - 1].end < n
      invariant |chunks| + 1 + Ceiling(n - start - s.size, step) == Count(n, s)
      decreases n - start
    {
      var end := if start + s.size < n then start + s.size else n;
      var c := Chunk(path, content[start..end], start, end, workspace);
      AddWindow(content, s, path, workspace, chunks, c);
      chunks := chunks + [c];
      if end >= n {
        assert content[..n] == content;
        return;
      }
      assert (|chunks| - 1) * step + step == |chunks| * step;
      start := start + step;
    }
  }

  lemma RejoinedNothing(overlap: nat)
    ensures Rejoined([], overlap) == ""
  {
  }
}
