/** The size of chunks, and how the windows over an oversized one lie. */
module ChunkShape {
  import opened Text
  import opened Normalize
  import opened Chunker

  // ---- Sizes --------------------------------------------------------------------------------

  /** Not empty, trimmed, and of at most `limit` characters. */
  predicate Fits(c: Chunk, limit: nat) {
    c.content != "" && Trimmed(c.content) && |c.content| <= limit
  }

  predicate AllFit(chunks: seq<Chunk>, limit: nat) {
    forall c | c in chunks :: Fits(c, limit)
  }

  lemma MadeFits(content: string, start: nat, end: nat, limit: nat)
    requires |content| <= limit
    ensures AllFit(Made(content, start, end), limit)
  {
    var lo, hi := TrimSplits(content);
  }

  lemma {:induction false} CutoutsFit(text: string, spans: seq<Span>, base: nat, limit: nat)
    requires forall w | w in spans :: w.lo <= w.hi <= |text| && w.hi - w.lo <= limit
    ensures AllFit(Cutouts(text, spans, base), limit)
  {
    if spans != [] {
      MadeFits(text[spans[0].lo..spans[0].hi], base + spans[0].lo, base + spans[0].hi, limit);
      CutoutsFit(text, spans[1..], base, limit);
    }
  }

  lemma WindowsFit(text: string, target: nat, overlap: nat, base: nat)
    requires target > 0
    ensures AllFit(Windows(text, target, overlap, base), target)
  {
    WindowsInside(|text|, 0, target, overlap);
    CutoutsFit(text, WindowsFrom(|text|, 0, target, overlap), base, target);
  }

  predicate AllTrimmed(chunks: seq<Chunk>) {
    forall c | c in chunks :: c.content != "" && Trimmed(c.content)
  }

  lemma {:induction false} GroupsAreTrimmed(sentences: seq<string>, g: Group, target: nat, overlap: nat)
    ensures AllTrimmed(GroupsFrom(sentences, g, target, overlap))
  {
    hide Made, Added, Carried;
    MadeFits(g.buf, g.start, g.start + |g.buf|, |g.buf|);
    if sentences != [] {
      GroupsAreTrimmed(sentences[1..], Added(Carried(g, overlap), sentences[0]), target, overlap);
      GroupsAreTrimmed(sentences[1..], Added(g, sentences[0]), target, overlap);
    }
  }

  lemma AllGroupsAreTrimmed(sentences: seq<string>, target: nat, overlap: nat)
    ensures AllTrimmed(Groups(sentences, target, overlap))
  {
    GroupsAreTrimmed(sentences, Group("", 0, 0), target, overlap);
  }

  lemma {:induction false} ResizedFit(chunks: seq<Chunk>, target: nat, overlap: nat)
    requires target > 0 && AllTrimmed(chunks)
    ensures AllFit(Resized(chunks, target, overlap), Limit(target, overlap))
  {
    hide Windows;
    if chunks != [] {
      assert chunks[0] in chunks && AllTrimmed(chunks[1..]);
      WindowsFit(chunks[0].content, target, overlap, chunks[0].start);
      ResizedFit(chunks[1..], target, overlap);
    }
  }

  lemma {:induction false} PlacedFit(chunks: seq<Chunk>, offset: nat, len: nat, limit: nat)
    requires AllFit(chunks, limit)
    ensures AllFit(PlacedAll(chunks, offset, len), limit)
  {
    if chunks != [] {
      assert chunks[0] in chunks && AllFit(chunks[1..], limit);
      PlacedFit(chunks[1..], offset, len, limit);
    }
  }

  lemma ParagraphFits(para: string, offset: nat, target: nat, overlap: nat)
    requires target > 0
    ensures AllFit(ParagraphChunks(para, offset, target, overlap), Limit(target, overlap))
  {
    hide Made, Groups, Sentences, Resized, PlacedAll;
    if |para| <= target {
      MadeFits(para, offset, offset + |para|, Limit(target, overlap));
    } else {
      var groups := Groups(Sentences(para), target, overlap);
      AllGroupsAreTrimmed(Sentences(para), target, overlap);
      ResizedFit(groups, target, overlap);
      PlacedFit(Resized(groups, target, overlap), offset, |para|, Limit(target, overlap));
    }
  }

  lemma {:induction false} ChunksOfFit(paras: seq<string>, n: nat, target: nat, overlap: nat)
    requires target > 0 && n <= |paras|
    ensures AllFit(ChunksOf(paras, n, target, overlap), Limit(target, overlap))
  {
    hide ParagraphChunks;
    if n > 0 {
      ChunksOfFit(paras, n - 1, target, overlap);
      ParagraphFits(paras[n - 1], Offset(paras, n - 1), target, overlap);
    }
  }

  /** Every chunk of every text is non-empty, trimmed and at most `target + max(overlap, 1)` characters long. */
  lemma ChunksFit(text: string, target: nat, overlap: nat)
    ensures forall c | c in Chunks(text, target, overlap) ::
              c.content != "" && Trimmed(c.content) && |c.content| <= target + Max(overlap, 1)
  {
    hide ParagraphChunks, Paragraphs, Normalized;
    if target > 0 {
      var paras := Paragraphs(Normalized(text));
      ChunksOfFit(paras, |paras|, target, overlap);
    }
  }

  // ---- Windows ------------------------------------------------------------------------------

  /** Each window but the last is full, and shares exactly `shared` characters with the one after it. */
  predicate Overlapping(spans: seq<Span>, target: nat, shared: nat) {
    forall i | 0 <= i < |spans| - 1 ::
      && spans[i].hi == spans[i].lo + target
      && spans[i].hi == spans[i + 1].lo + shared
      && spans[i].hi < spans[i + 1].hi
  }

  lemma {:induction false} WindowsOverlap(total: nat, start: nat, target: nat, overlap: nat)
    requires target > 0 && start < total
    ensures
      var spans := WindowsFrom(total, start, target, overlap);
      && spans != [] && spans[0].lo == start && spans[0].hi == Min(start + target, total)
      && spans[|spans| - 1].hi == total
      && Overlapping(spans, target, Min(overlap, target - 1))
    decreases total - start
  {
    if start + target < total {
      var next := start + Stride(target, overlap);
      WindowsOverlap(total, next, target, overlap);
      hide Overlapping;
      OverlapCons(Span(start, start + target), WindowsFrom(total, next, target, overlap),
                  target, Min(overlap, target - 1));
      assert WindowsFrom(total, start, target, overlap)
          == [Span(start, start + target)] + WindowsFrom(total, next, target, overlap);
    }
  }

  lemma OverlapCons(first: Span, rest: seq<Span>, target: nat, shared: nat)
    requires rest != [] && Overlapping(rest, target, shared)
    requires first.hi == first.lo + target == rest[0].lo + shared && first.hi < rest[0].hi
    ensures Overlapping([first] + rest, target, shared)
  {
    var spans := [first] + rest;
    forall i | 0 <= i < |spans| - 1
      ensures spans[i].hi == spans[i].lo + target
      ensures spans[i].hi == spans[i + 1].lo + shared && spans[i].hi < spans[i + 1].hi
    {
      if i > 0 {
        assert spans[i] == rest[i - 1] && spans[i + 1] == rest[i];
      }
    }
  }

  /**
    The windows over a text of `total` characters, for any overlap (even one not below the target): they start at
    the first character, end at the last, and neighbours share exactly `min(overlap, target - 1)` characters.
   */
  lemma WindowsCoverText(total: nat, target: nat, overlap: nat)
    requires target > 0 && total > 0
    ensures
      var spans := WindowsFrom(total, 0, target, overlap);
      && spans != [] && spans[0].lo == 0 && spans[|spans| - 1].hi == total
      && (forall i | 0 <= i < |spans| - 1 ::
            spans[i].hi - spans[i].lo == target && spans[i].hi - spans[i + 1].lo == Min(overlap, target - 1))
      && (forall k: nat | k < total :: UnderSome(spans, k))
  {
    WindowsOverlap(total, 0, target, overlap);
    forall k: nat | k < total
      ensures UnderSome(WindowsFrom(total, 0, target, overlap), k)
    {
      var i := WindowOver(total, 0, target, overlap, k);
    }
  }

  ghost predicate UnderSome(spans: seq<Span>, k: nat) {
    exists i | 0 <= i < |spans| :: spans[i].lo <= k < spans[i].hi
  }

  lemma {:induction false} WindowOver(total: nat, start: nat, target: nat, overlap: nat, k: nat) returns (i: nat)
    requires target > 0 && start <= k < total
    ensures
      var spans := WindowsFrom(total, start, target, overlap);
      i < |spans| && spans[i].lo <= k < spans[i].hi
    decreases total - start
  {
    if k < start + target {
      i := 0;
    } else {
      var next := start + Stride(target, overlap);
      i := WindowOver(total, next, target, overlap, k);
      assert WindowsFrom(total, start, target, overlap)
          == [Span(start, start + target)] + WindowsFrom(total, next, target, overlap);
      i := i + 1;
    }
  }
}
