/**
  Chunking loses and reorders nothing: the ink of every chunk is a block of the ink of the text, and the
  blocks, in order, leave no gap.
*/
module ChunkCover {
  import opened Text
  import opened Normalize
  import opened Chunker

  /**
    The ink of each chunk is the block of `ink` given by its span; each block starts no later than the point
    reached by those before it and at most `reach` characters earlier, and together they lead from `from` to `to`.
   */
  ghost predicate Cover(chunks: seq<Chunk>, spans: seq<Span>, ink: string, from: nat, to: nat, reach: nat)
    decreases |chunks|
  {
    && |chunks| == |spans|
    && if chunks == [] then from == to
       else
         var s := spans[0];
         && s.lo <= from <= s.lo + reach
         && s.lo <= s.hi <= |ink| && Ink(chunks[0].content) == ink[s.lo..s.hi]
         && Cover(chunks[1..], spans[1..], ink, Max(from, s.hi), to, reach)
  }

  lemma {:induction false} CoverConcat(a: seq<Chunk>, sa: seq<Span>, b: seq<Chunk>, sb: seq<Span>, ink: string,
                                       from: nat, mid: nat, to: nat, reach: nat)
    requires Cover(a, sa, ink, from, mid, reach) && Cover(b, sb, ink, mid, to, reach)
    ensures Cover(a + b, sa + sb, ink, from, to, reach)
    decreases |a|
  {
    hide Ink;
    if a == [] {
      assert a + b == b && sa + sb == sb;
    } else {
      CoverConcat(a[1..], sa[1..], b, sb, ink, Max(from, sa[0].hi), mid, to, reach);
      assert (a + b)[1..] == a[1..] + b && (sa + sb)[1..] == sa[1..] + sb;
    }
  }

  lemma CoverOne(c: Chunk, s: Span, ink: string, from: nat, reach: nat)
    requires s.lo <= from <= s.lo + reach
    requires s.lo <= s.hi <= |ink| && Ink(c.content) == ink[s.lo..s.hi]
    ensures Cover([c], [s], ink, from, Max(from, s.hi), reach)
  {
    hide Ink;
    assert [c][1..] == [] && [s][1..] == [];
  }

  function Shifted(spans: seq<Span>, k: nat): seq<Span> {
    if spans == [] then [] else [Span(spans[0].lo + k, spans[0].hi + k)] + Shifted(spans[1..], k)
  }

  /** A cover of a block of `big` is a cover within `big`. */
  lemma {:induction false} CoverWithin(chunks: seq<Chunk>, spans: seq<Span>, ink: string, from: nat, to: nat,
                                       reach: nat,
                                       big: string, k: nat)
    requires Cover(chunks, spans, ink, from, to, reach)
    requires k + |ink| <= |big| && big[k..k + |ink|] == ink
    ensures Cover(chunks, Shifted(spans, k), big, from + k, to + k, reach)
    decreases |chunks|
  {
    hide Ink;
    if chunks != [] {
      var s := spans[0];
      CoverWithin(chunks[1..], spans[1..], ink, Max(from, s.hi), to, reach, big, k);
      SliceWithin(big, k, ink, s.lo, s.hi);
      assert Shifted(spans, k)[1..] == Shifted(spans[1..], k);
    }
  }

  lemma SliceWithin(big: string, k: nat, ink: string, lo: nat, hi: nat)
    requires k + |ink| <= |big| && big[k..k + |ink|] == ink && lo <= hi <= |ink|
    ensures big[k + lo..k + hi] == ink[lo..hi]
  {
    forall i | 0 <= i < hi - lo
      ensures big[k + lo..k + hi][i] == ink[lo..hi][i]
    {
      assert big[k..k + |ink|][lo + i] == ink[lo + i];
    }
  }

  /** A cover whose blocks all start from `low` on may also start from a later point within reach of `low`. */
  lemma {:induction false} CoverLater(chunks: seq<Chunk>, spans: seq<Span>, ink: string, from: nat, to: nat,
                                      reach: nat, later: nat, low: nat)
    requires Cover(chunks, spans, ink, from, to, reach) && later <= low + reach
    requires forall s | s in spans :: low <= s.lo
    ensures Cover(chunks, spans, ink, Max(from, later), Max(to, later), reach)
    decreases |chunks|
  {
    hide Ink;
    if chunks != [] {
      assert spans[0] in spans && forall s | s in spans[1..] :: s in spans;
      CoverLater(chunks[1..], spans[1..], ink, Max(from, spans[0].hi), to, reach, later, low);
    }
  }

  lemma {:induction false} ShiftedStarts(spans: seq<Span>, k: nat)
    ensures forall s | s in Shifted(spans, k) :: k <= s.lo
  {
    if spans != [] { ShiftedStarts(spans[1..], k); }
  }

  lemma {:induction false} CoverForward(chunks: seq<Chunk>, spans: seq<Span>, ink: string, from: nat, to: nat,
                                        reach: nat)
    requires Cover(chunks, spans, ink, from, to, reach)
    ensures from <= to
    decreases |chunks|
  {
    hide Ink;
    if chunks != [] {
      CoverForward(chunks[1..], spans[1..], ink, Max(from, spans[0].hi), to, reach);
    }
  }

  // ---- One chunk ----------------------------------------------------------------------------

  /** The ink of a stretch of text is a block of its ink. */
  lemma InkBlock(s: string, a: nat, b: nat)
    requires a <= b <= |s|
    ensures |Ink(s[..a])| <= |Ink(s[..b])| <= |Ink(s)|
    ensures Ink(s[a..b]) == Ink(s)[|Ink(s[..a])|..|Ink(s[..b])|]
  {
    InkConcat(s[..a], s[a..b]);
    InkConcat(s[..b], s[b..]);
    assert s[..b] == s[..a] + s[a..b] && s == s[..b] + s[b..];
  }

  /** Making a chunk of a text covers the text's ink, or there was none. */
  lemma MadeCover(content: string, start: nat, end: nat, s: Span, ink: string, from: nat,
                  reach: nat) returns (spans: seq<Span>)
    requires s.lo <= from <= s.lo + reach && s.lo <= s.hi <= |ink| && Ink(content) == ink[s.lo..s.hi]
    ensures Cover(Made(content, start, end), spans, ink, from, Max(from, s.hi), reach)
  {
    var lo, hi := TrimSplits(content);
    if Trim(content) == "" {
      InkOfSpace(content);
      spans := [];
    } else {
      CoverOne(Chunk(Trim(content), start, end), s, ink, from, reach);
      spans := [s];
    }
  }

  // ---- Windows ------------------------------------------------------------------------------

  lemma {:induction false} WindowsCover(text: string, start: nat, reached: nat, target: nat, overlap: nat, base: nat)
    returns (spans: seq<Span>)
    requires target > 0 && start < |text|
    requires start <= reached <= Min(start + target, |text|) && reached <= start + overlap
    ensures Cover(CutFrom(text, start, target, overlap, base), spans,
                  Ink(text), |Ink(text[..reached])|, |Ink(text)|, overlap)
    decreases |text| - start
  {
    hide Ink, Made, CutFrom, Cover;
    var end := Min(start + target, |text|);
    CutFromStep(text, start, target, overlap, base);
    InkBlock(text, start, end);
    InkBlock(text, start, reached);
    InkLength(text[start..reached]);
    InkBlock(text, reached, end);
    var from, mid := |Ink(text[..reached])|, |Ink(text[..end])|;
    spans := MadeCover(text[start..end], base + start, base + end,
                       Span(|Ink(text[..start])|, mid), Ink(text), from, overlap);
    var first := Made(text[start..end], base + start, base + end);
    if end < |text| {
      var more := WindowsCover(text, start + Stride(target, overlap), end, target, overlap, base);
      CoverConcat(first, spans, CutFrom(text, start + Stride(target, overlap), target, overlap, base), more,
                  Ink(text), from, mid, |Ink(text)|, overlap);
      spans := spans + more;
    } else {
      assert text[..end] == text;
      assert first + [] == first;
    }
  }

  lemma AllWindowsCover(text: string, target: nat, overlap: nat, base: nat) returns (spans: seq<Span>)
    requires target > 0
    ensures Cover(Windows(text, target, overlap, base), spans, Ink(text), 0, |Ink(text)|, overlap)
  {
    if text == "" {
      CutFromEmpty(target, overlap, base);
      spans := [];
    } else {
      spans := WindowsCover(text, 0, 0, target, overlap, base);
      assert text[..0] == "";
    }
  }

  // ---- Groups -------------------------------------------------------------------------------

  /** The group holds the ink `ink[lo..hi]`, and everything before `from` has been put into chunks. */
  predicate Holding(g: Group, ink: string, lo: nat, from: nat, hi: nat, overlap: nat) {
    && lo <= from <= hi <= |ink|
    && Ink(g.buf) == ink[lo..hi]
    && from <= lo + overlap
  }

  lemma AddedInk(g: Group, s: string)
    ensures Ink(Added(g, s).buf) == Ink(g.buf) + Ink(s)
  {
    InkConcat(g.buf, s);
    InkConcat(g.buf + " ", s);
    InkConcat(g.buf, " ");
    InkOfSpace(" ");
    hide Ink;
    assert Ink(g.buf) + "" == Ink(g.buf);
  }

  lemma CarriedInk(g: Group, ink: string, lo: nat, hi: nat, overlap: nat) returns (lo': nat)
    requires lo <= hi <= |ink| && Ink(g.buf) == ink[lo..hi]
    ensures lo <= lo' <= hi && Ink(Carried(g, overlap).buf) == ink[lo'..hi]
    ensures hi <= lo' + overlap
  {
    hide Ink;
    var k := |g.buf| - Min(overlap, |g.buf|);
    InkTail(g.buf, k);
    InkLength(g.buf[k..]);
    lo' := lo + |Ink(g.buf[..k])|;
    TailOfSlice(ink, lo, hi, lo' - lo);
  }

  lemma InkTail(s: string, k: nat)
    requires k <= |s|
    ensures |Ink(s[..k])| <= |Ink(s)| && Ink(s[k..]) == Ink(s)[|Ink(s[..k])|..]
  {
    hide Ink;
    InkConcat(s[..k], s[k..]);
    assert s == s[..k] + s[k..];
  }

  lemma TailOfSlice(s: string, lo: nat, hi: nat, k: nat)
    requires lo + k <= hi <= |s|
    ensures s[lo..hi][k..] == s[lo + k..hi]
  {
  }

  lemma FlushedCover(g: Group, ink: string, lo: nat, from: nat, hi: nat, overlap: nat) returns (spans: seq<Span>)
    requires Holding(g, ink, lo, from, hi, overlap)
    ensures Cover(Flushed(g), spans, ink, from, hi, overlap)
  {
    spans := MadeCover(g.buf, g.start, g.start + |g.buf|, Span(lo, hi), ink, from, overlap);
  }

  lemma AddedHolds(g: Group, s: string, ink: string, lo: nat, from: nat, hi: nat, overlap: nat, rest: string)
    requires Holding(g, ink, lo, from, hi, overlap) && ink[hi..] == Ink(s) + rest
    ensures hi + |Ink(s)| <= |ink| && Holding(Added(g, s), ink, lo, from, hi + |Ink(s)|, overlap)
    ensures ink[hi + |Ink(s)|..] == rest
  {
    AddedInk(g, s);
    hide Ink, Added;
    var end := hi + |Ink(s)|;
    assert ink[hi..end] == ink[hi..][..|Ink(s)|];
    assert ink[end..] == ink[hi..][|Ink(s)|..];
    assert ink[lo..end] == ink[lo..hi] + ink[hi..end];
  }

  lemma ConcatInkCons(s: string, more: seq<string>)
    ensures Ink(Concat([s] + more)) == Ink(s) + Ink(Concat(more))
  {
    assert ([s] + more)[1..] == more;
    InkConcat(s, Concat(more));
  }

  lemma {:induction false} GroupsCover(sentences: seq<string>, g: Group, ink: string, lo: nat, from: nat, hi: nat,
                                       target: nat, overlap: nat) returns (spans: seq<Span>)
    requires Holding(g, ink, lo, from, hi, overlap)
    requires ink[hi..] == Ink(Concat(sentences))
    ensures Cover(GroupsFrom(sentences, g, target, overlap), spans, ink, from, |ink|, overlap)
    decreases |sentences|
  {
    hide Ink, Added, Carried, Flushed, Cover, Holding;
    var flushed := FlushedCover(g, ink, lo, from, hi, overlap);
    if sentences == [] {
      HoldingBound(g, ink, lo, from, hi, overlap);
      ConcatEmpty(ink, hi);
      spans := flushed;
    } else {
      var s, more := sentences[0], sentences[1..];
      assert sentences == [s] + more;
      ConcatInkCons(s, more);
      if Overfull(g, s, target) {
        var lo', g' := CarriedHolds(g, ink, lo, from, hi, overlap);
        AddedHolds(g', s, ink, lo', hi, hi, overlap, Ink(Concat(more)));
        var later := GroupsCover(more, Added(g', s), ink, lo', hi, hi + |Ink(s)|, target, overlap);
        CoverConcat(Flushed(g), flushed, GroupsFrom(more, Added(g', s), target, overlap), later,
                    ink, from, hi, |ink|, overlap);
        spans := flushed + later;
      } else {
        AddedHolds(g, s, ink, lo, from, hi, overlap, Ink(Concat(more)));
        spans := GroupsCover(more, Added(g, s), ink, lo, from, hi + |Ink(s)|, target, overlap);
      }
    }
  }

  lemma ConcatEmpty(ink: string, hi: nat)
    requires hi <= |ink| && ink[hi..] == Ink(Concat([]))
    ensures hi == |ink|
  {
  }

  lemma HoldingBound(g: Group, ink: string, lo: nat, from: nat, hi: nat, overlap: nat)
    requires Holding(g, ink, lo, from, hi, overlap)
    ensures hi <= |ink|
  {
  }

  lemma CarriedHolds(g: Group, ink: string, lo: nat, from: nat, hi: nat, overlap: nat) returns (lo': nat, g': Group)
    requires Holding(g, ink, lo, from, hi, overlap)
    ensures g' == Carried(g, overlap) && Holding(g', ink, lo', hi, hi, overlap)
  {
    lo' := CarriedInk(g, ink, lo, hi, overlap);
    g' := Carried(g, overlap);
  }

  lemma AllGroupsCover(para: string, target: nat, overlap: nat) returns (spans: seq<Span>)
    ensures Cover(Groups(Sentences(para), target, overlap), spans, Ink(para), 0, |Ink(para)|, overlap)
  {
    SentencesInk(para, 0, 0);
    assert para[0..] == para && Ink(para)[0..] == Ink(para) && Ink("") == Ink(para)[0..0];
    spans := GroupsCover(Sentences(para), Group("", 0, 0), Ink(para), 0, 0, 0, target, overlap);
  }

  // ---- Resizing and placing -----------------------------------------------------------------

  lemma {:induction false} ResizedCover(chunks: seq<Chunk>, spans: seq<Span>, ink: string, from: nat, to: nat,
                                        target: nat, overlap: nat) returns (spans': seq<Span>)
    requires target > 0 && Cover(chunks, spans, ink, from, to, overlap)
    ensures Cover(Resized(chunks, target, overlap), spans', ink, from, to, overlap)
    decreases |chunks|
  {
    hide Ink, Windows;
    if chunks == [] {
      spans' := [];
    } else {
      var c, s := chunks[0], spans[0];
      var mid := Max(from, s.hi);
      var later := ResizedCover(chunks[1..], spans[1..], ink, mid, to, target, overlap);
      var first: seq<Span>;
      if |c.content| > Limit(target, overlap) {
        first := WindowedCover(c, s, ink, from, target, overlap);
        CoverConcat(Windows(c.content, target, overlap, c.start), first, Resized(chunks[1..], target, overlap), later,
                    ink, from, mid, to, overlap);
      } else {
        first := [s];
        CoverOne(c, s, ink, from, overlap);
        CoverConcat([c], first, Resized(chunks[1..], target, overlap), later, ink, from, mid, to, overlap);
      }
      spans' := first + later;
    }
  }

  lemma WindowedCover(c: Chunk, s: Span, ink: string, from: nat, target: nat, overlap: nat) returns (spans: seq<Span>)
    requires target > 0 && s.lo <= from <= s.lo + overlap
    requires s.lo <= s.hi <= |ink| && Ink(c.content) == ink[s.lo..s.hi]
    ensures Cover(Windows(c.content, target, overlap, c.start), spans, ink, from, Max(from, s.hi), overlap)
  {
    hide Ink, Windows, Cover;
    var own := AllWindowsCover(c.content, target, overlap, c.start);
    var windows := Windows(c.content, target, overlap, c.start);
    CoverWithin(windows, own, Ink(c.content), 0, |Ink(c.content)|, overlap, ink, s.lo);
    spans := Shifted(own, s.lo);
    ShiftedStarts(own, s.lo);
    CoverLater(windows, spans, ink, s.lo, s.hi, overlap, from, s.lo);
  }

  lemma {:induction false} PlacedCover(chunks: seq<Chunk>, spans: seq<Span>, ink: string, from: nat, to: nat,
                                       reach: nat,
                                       offset: nat, len: nat)
    requires Cover(chunks, spans, ink, from, to, reach)
    ensures Cover(PlacedAll(chunks, offset, len), spans, ink, from, to, reach)
    decreases |chunks|
  {
    hide Ink;
    if chunks != [] {
      PlacedCover(chunks[1..], spans[1..], ink, Max(from, spans[0].hi), to, reach, offset, len);
      assert PlacedAll(chunks, offset, len)[1..] == PlacedAll(chunks[1..], offset, len);
    }
  }

  lemma ParagraphCover(para: string, offset: nat, target: nat, overlap: nat) returns (spans: seq<Span>)
    requires target > 0
    ensures Cover(ParagraphChunks(para, offset, target, overlap), spans, Ink(para), 0, |Ink(para)|, overlap)
  {
    hide Made, Groups, Sentences, Resized, PlacedAll;
    if para == "" {
      spans := [];
    } else if |para| <= target {
      assert Ink(para)[0..|Ink(para)|] == Ink(para);
      spans := MadeCover(para, offset, offset + |para|, Span(0, |Ink(para)|), Ink(para), 0, overlap);
    } else {
      var groups := Groups(Sentences(para), target, overlap);
      spans := AllGroupsCover(para, target, overlap);
      spans := ResizedCover(groups, spans, Ink(para), 0, |Ink(para)|, target, overlap);
      PlacedCover(Resized(groups, target, overlap), spans, Ink(para), 0, |Ink(para)|, overlap, offset, |para|);
    }
  }

  // ---- The whole text -----------------------------------------------------------------------

  function InkUpTo(paras: seq<string>, n: nat): string
    requires n <= |paras|
  {
    if n == 0 then "" else InkUpTo(paras, n - 1) + Ink(paras[n - 1])
  }

  lemma {:induction false} ChunksOfCover(paras: seq<string>, n: nat, target: nat,
                                         overlap: nat) returns (spans: seq<Span>)
    requires target > 0 && n <= |paras|
    ensures
      var ink := InkUpTo(paras, n);
      Cover(ChunksOf(paras, n, target, overlap), spans, ink, 0, |ink|, overlap)
  {
    hide Ink, ParagraphChunks;
    if n == 0 {
      spans := [];
    } else {
      var before, own := InkUpTo(paras, n - 1), Ink(paras[n - 1]);
      var ink := before + own;
      spans := ChunksOfCover(paras, n - 1, target, overlap);
      var more := ParagraphCover(paras[n - 1], Offset(paras, n - 1), target, overlap);
      var a := ChunksOf(paras, n - 1, target, overlap);
      var b := ParagraphChunks(paras[n - 1], Offset(paras, n - 1), target, overlap);
      assert ink[0..|before|] == before && ink[|before|..|before| + |own|] == own;
      CoverWithin(a, spans, before, 0, |before|, overlap, ink, 0);
      CoverWithin(b, more, own, 0, |own|, overlap, ink, |before|);
      CoverConcat(a, Shifted(spans, 0), b, Shifted(more, |before|), ink, 0, |before|, |ink|, overlap);
      spans := Shifted(spans, 0) + Shifted(more, |before|);
    }
  }

  lemma {:induction false} InkUpToJoin(paras: seq<string>, n: nat)
    requires n < |paras|
    ensures InkUpTo(paras, |paras|) == InkUpTo(paras, n) + Ink(Join(paras[n..], "\n\n"))
    decreases |paras| - n
  {
    var p, more := paras[n], paras[n + 1..];
    assert paras[n..] == [p] + more;
    if more == [] {
      assert [p] + more == [p];
    } else {
      InkUpToJoin(paras, n + 1);
      JoinFirst(p, more, "\n\n");
      InkConcat(p + "\n\n", Join(more, "\n\n"));
      InkConcat(p, "\n\n");
      InkOfSpace("\n\n");
      assert Ink(p) + "" == Ink(p);
      Assoc(InkUpTo(paras, n), Ink(p), Ink(Join(more, "\n\n")));
    }
  }

  lemma {:induction false} InkOfWeave(words: seq<string>, a: seq<string>, b: seq<string>)
    requires Woven(words, a) && Woven(words, b)
    ensures Ink(Weave(words, a)) == Ink(Weave(words, b))
    decreases |words|
  {
    var n := |a| - 1;
    if a != [] {
      InkOfWeave(words[..n + 1], a[..n], b[..n]);
      WeaveInk(words, a);
      WeaveInk(words, b);
    }
  }

  lemma WeaveInk(words: seq<string>, gaps: seq<string>)
    requires Woven(words, gaps) && gaps != []
    ensures
      var n := |gaps| - 1;
      Ink(Weave(words, gaps)) == Ink(Weave(words[..n + 1], gaps[..n])) + Ink(words[n + 1])
  {
    var n := |gaps| - 1;
    var init := Weave(words[..n + 1], gaps[..n]);
    InkConcat(init + gaps[n], words[n + 1]);
    InkConcat(init, gaps[n]);
    InkOfSpace(gaps[n]);
  }

  /** Normalising touches white space only. */
  lemma NormalizedKeepsInk(s: string)
    ensures Ink(Normalized(s)) == Ink(s)
  {
    var lead, words, gaps, trail := Unweave(s);
    if AllSpace(s) {
      NormalizedSpace(s);
      InkOfSpace(s);
    } else {
      NormalizedWeave(lead, words, gaps, trail);
      InkOfWeave(words, gaps, Shapes(gaps));
      InkConcat(lead + Weave(words, gaps), trail);
      InkConcat(lead, Weave(words, gaps));
      InkOfSpace(lead);
      InkOfSpace(trail);
    }
  }

  /**
    The ink of every chunk is a block of the ink of the text; the blocks lead from its start to its end, and each
    repeats at most `overlap` characters of what came before.
   */
  lemma ChunksCover(text: string, target: nat, overlap: nat) returns (spans: seq<Span>)
    requires target > 0
    ensures Cover(Chunks(text, target, overlap), spans, Ink(text), 0, |Ink(text)|, overlap)
  {
    hide Ink, Cover, ChunksOf;
    var paras := Paragraphs(Normalized(text));
    spans := ChunksOfCover(paras, |paras|, target, overlap);
    WholeInk(text);
  }

  lemma WholeInk(text: string)
    ensures
      var paras := Paragraphs(Normalized(text));
      InkUpTo(paras, |paras|) == Ink(text)
  {
    hide Ink, Normalized;
    var paras := Paragraphs(Normalized(text));
    InkUpToJoin(paras, 0);
    ParagraphsJoin(Normalized(text));
    NormalizedKeepsInk(text);
    assert paras[0..] == paras;
  }

  // ---- What a reader of the chunks gets back -------------------------------------------------

  /** How much of each block the blocks before it have already given. */
  function Repeats(spans: seq<Span>, from: nat): seq<nat> {
    if spans == [] then [] else [Known(spans[0], from)] + Repeats(spans[1..], Max(from, spans[0].hi))
  }

  function Known(s: Span, from: nat): nat {
    Minus(Min(from, s.hi), s.lo)
  }

  lemma {:induction false} RepeatsAreShort(chunks: seq<Chunk>, spans: seq<Span>, ink: string, from: nat, to: nat,
                                           reach: nat)
    requires Cover(chunks, spans, ink, from, to, reach)
    ensures forall k | k in Repeats(spans, from) :: k <= reach
    decreases |chunks|
  {
    hide Ink;
    if chunks != [] {
      RepeatsAreShort(chunks[1..], spans[1..], ink, Max(from, spans[0].hi), to, reach);
    }
  }

  /** The ink of the chunks, each without the prefix that the chunks before it have already given. */
  function FreshInk(chunks: seq<Chunk>, spans: seq<Span>, from: nat): string
    requires |chunks| == |spans|
    decreases |chunks|
  {
    if chunks == [] then ""
    else
      var known := Known(spans[0], from);
      var ink := Ink(chunks[0].content);
      (if known <= |ink| then ink[known..] else "") + FreshInk(chunks[1..], spans[1..], Max(from, spans[0].hi))
  }

  lemma FreshPart(ink: string, s: Span, from: nat, to: nat)
    requires s.lo <= s.hi && s.lo <= from && Max(from, s.hi) <= to <= |ink|
    ensures Known(s, from) <= s.hi - s.lo
    ensures ink[s.lo..s.hi][Known(s, from)..] + ink[Max(from, s.hi)..to] == ink[from..to]
  {
    if from < s.hi {
      TailOfSlice(ink, s.lo, s.hi, from - s.lo);
      SplitSlice(ink, from, s.hi, to);
    }
  }

  lemma SplitSlice(s: string, lo: nat, mid: nat, hi: nat)
    requires lo <= mid <= hi <= |s|
    ensures s[lo..hi] == s[lo..mid] + s[mid..hi]
  {
  }

  lemma {:induction false} FreshInkIsAll(chunks: seq<Chunk>, spans: seq<Span>, ink: string, from: nat, to: nat,
                                         reach: nat)
    requires Cover(chunks, spans, ink, from, to, reach) && to <= |ink|
    ensures from <= to && FreshInk(chunks, spans, from) == ink[from..to]
    decreases |chunks|
  {
    hide Ink;
    if chunks != [] {
      var s := spans[0];
      var mid := Max(from, s.hi);
      FreshInkIsAll(chunks[1..], spans[1..], ink, mid, to, reach);
      FreshPart(ink, s, from, to);
    }
  }

  function Contents(chunks: seq<Chunk>): string {
    if chunks == [] then "" else chunks[0].content + Contents(chunks[1..])
  }

  lemma NoInk()
    ensures Ink("") == ""
  {
  }

  lemma {:induction false} TightContents(chunks: seq<Chunk>, spans: seq<Span>, ink: string, from: nat, to: nat)
    requires Cover(chunks, spans, ink, from, to, 0) && to <= |ink|
    ensures from <= to && Ink(Contents(chunks)) == ink[from..to]
    decreases |chunks|
  {
    hide Ink;
    NoInk();
    if chunks != [] {
      TightContents(chunks[1..], spans[1..], ink, Max(from, spans[0].hi), to);
      InkConcat(chunks[0].content, Contents(chunks[1..]));
      SplitSlice(ink, from, spans[0].hi, to);
    }
  }

  /**
    Nothing is lost and nothing reordered: each chunk begins with at most `overlap` characters of ink that came
    before, and without these the ink of the chunks is the ink of the text; with overlap 0 there are none.
   */
  lemma NothingIsLost(text: string, target: nat, overlap: nat) returns (spans: seq<Span>)
    requires target > 0
    ensures Cover(Chunks(text, target, overlap), spans, Ink(text), 0, |Ink(text)|, overlap)
    ensures |spans| == |Chunks(text, target, overlap)|
    ensures forall k | k in Repeats(spans, 0) :: k <= overlap
    ensures FreshInk(Chunks(text, target, overlap), spans, 0) == Ink(text)
    ensures overlap == 0 ==> Ink(Contents(Chunks(text, target, overlap))) == Ink(text)
  {
    hide Ink, Chunks, Cover;
    spans := ChunksCover(text, target, overlap);
    var chunks := Chunks(text, target, overlap);
    RepeatsAreShort(chunks, spans, Ink(text), 0, |Ink(text)|, overlap);
    FreshInkIsAll(chunks, spans, Ink(text), 0, |Ink(text)|, overlap);
    assert Ink(text)[0..|Ink(text)|] == Ink(text);
    if overlap == 0 {
      TightContents(chunks, spans, Ink(text), 0, |Ink(text)|);
    }
    CoverLength(chunks, spans, Ink(text), 0, |Ink(text)|, overlap);
  }

  lemma CoverLength(chunks: seq<Chunk>, spans: seq<Span>, ink: string, from: nat, to: nat, reach: nat)
    requires Cover(chunks, spans, ink, from, to, reach)
    ensures |chunks| == |spans|
  {
  }
}
