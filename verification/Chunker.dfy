/**
  The Korean-aware chunker: paragraphs, sentences grouped up to a target size with an overlap, and a sliding
  window for what is still too long.  Sizes and offsets count characters of the normalised text.
*/
module Chunker {
  import opened Text
  import opened Normalize

  datatype Chunk = Chunk(content: string, start: nat, end: nat)

  function Min(a: nat, b: nat): nat { if a < b then a else b }

  function Max(a: nat, b: nat): nat { if a < b then b else a }

  function Minus(a: nat, b: nat): nat { if a < b then 0 else a - b }

  // ---- Chunks -------------------------------------------------------------------------------

  /** A chunk of trimmed content; none for a blank text. */
  function Made(content: string, start: nat, end: nat): seq<Chunk> {
    if Trim(content) == "" then [] else [Chunk(Trim(content), start, end)]
  }

  method PushChunk(chunks: seq<Chunk>, content: string, start: nat, end: nat) returns (r: seq<Chunk>)
    ensures r == chunks + Made(content, start, end)
  {
    var trimmed := Trim(content);
    if trimmed == "" {
      return chunks;
    }
    r := chunks + [Chunk(trimmed, start, end)];
  }

  // ---- Paragraphs ---------------------------------------------------------------------------

  /** Splitting at "\n\n", left to right. */
  function Paragraphs(s: string): (r: seq<string>)
    ensures r != []
    decreases |s|
  {
    match FindLf(s, 0)
    case None => [s]
    case Some(p) => [s[..p]] + Paragraphs(s[p + 2..])
  }

  /** Where paragraph `i` begins. */
  function Offset(paras: seq<string>, i: nat): nat
    requires i <= |paras|
  {
    if i == 0 then 0 else Offset(paras, i - 1) + |paras[i - 1]| + 2
  }

  predicate OccursAt(text: string, needle: string, i: nat) {
    i + |needle| <= |text| && text[i..i + |needle|] == needle
  }

  /** The first occurrence at or after `from`; a needle longer than the text must not be searched from the start. */
  method FindCharIndex(text: string, needle: string, from: nat) returns (r: Option<nat>)
    requires from == 0 ==> |needle| <= |text|
    ensures needle == "" ==> r == Some(from)
    ensures needle != "" && r.Some? ==>
              && from <= r.value && OccursAt(text, needle, r.value)
              && forall i | from <= i < r.value :: !OccursAt(text, needle, i)
    ensures needle != "" && r.None? ==> forall i | from <= i :: !OccursAt(text, needle, i)
  {
    if needle == "" {
      return Some(from);
    }
    if from > |text| {
      return None;
    }
    var limit := Minus(|text|, |needle|);
    var i := from;
    while i <= limit
      invariant from <= i && forall j | from <= j < i :: !OccursAt(text, needle, j)
    {
      if text[i..i + |needle|] == needle {
        return Some(i);
      }
      i := i + 1;
    }
    return None;
  }

  lemma {:induction false} ParagraphsJoin(s: string)
    ensures Join(Paragraphs(s), "\n\n") == s
    decreases |s|
  {
    match FindLf(s, 0)
    case None =>
    case Some(p) =>
      var more := Paragraphs(s[p + 2..]);
      ParagraphsJoin(s[p + 2..]);
      JoinFirst(s[..p], more, "\n\n");
      assert s[p..p + 2] == "\n\n";
      assert s == (s[..p] + s[p..p + 2]) + s[p + 2..];
  }

  lemma JoinFirst(first: string, more: seq<string>, sep: string)
    requires more != []
    ensures Join([first] + more, sep) == first + sep + Join(more, sep)
  {
    assert ([first] + more)[1..] == more;
  }

  /** From paragraph `i` on, the joined text is the rest of the paragraphs. */
  lemma {:induction false} OffsetIsExact(paras: seq<string>, i: nat)
    requires i < |paras|
    ensures Offset(paras, i) <= |Join(paras, "\n\n")|
    ensures Join(paras, "\n\n")[Offset(paras, i)..] == Join(paras[i..], "\n\n")
    ensures OccursAt(Join(paras, "\n\n"), paras[i], Offset(paras, i))
    ensures i + 1 < |paras| ==> Offset(paras, i + 1) <= |Join(paras, "\n\n")|
  {
    var s, o := Join(paras, "\n\n"), Offset(paras, i);
    if i == 0 {
      assert paras[0..] == paras;
    } else {
      OffsetIsExact(paras, i - 1);
      var before := Join(paras[i - 1..], "\n\n");
      assert paras[i - 1..] == [paras[i - 1]] + paras[i..];
      JoinFirst(paras[i - 1], paras[i..], "\n\n");
      SuffixOfSuffix(s, Offset(paras, i - 1), paras[i - 1] + "\n\n", Join(paras[i..], "\n\n"));
    }
    StartsWithFirst(paras[i..], "\n\n");
    var rest := Join(paras[i..], "\n\n");
    assert s[o..][..|paras[i]|] == s[o..o + |paras[i]|];
  }

  lemma SuffixOfSuffix(s: string, k: nat, head: string, tail: string)
    requires k <= |s| && s[k..] == head + tail
    ensures k + |head| <= |s| && s[k + |head|..] == tail
  {
    assert s[k + |head|..] == s[k..][|head|..];
  }

  lemma StartsWithFirst(parts: seq<string>, sep: string)
    requires parts != []
    ensures
      var s := Join(parts, sep);
      |parts[0]| <= |s| && s[..|parts[0]|] == parts[0] && (|parts| > 1 ==> |parts[0]| + |sep| <= |s|)
  {
  }

  // ---- Sentences ----------------------------------------------------------------------------

  predicate IsMark(c: char) { c == '.' || c == '!' || c == '?' }

  /** The sentence endings "da" and "kka". */
  predicate IsEnding(c: char) { c == '\U{B2E4}' || c == '\U{AE4C}' }

  predicate SpaceOrEndAt(s: string, i: nat) {
    i < |s| ==> IsSpace(s[i])
  }

  /** A sentence ends after character `i`: at every mark, and at an ending before white space or the end. */
  predicate EndsAt(s: string, i: nat)
    requires i < |s|
  {
    IsMark(s[i]) || (IsEnding(s[i]) && SpaceOrEndAt(s, i + 1))
  }

  function Sentence(buf: string): seq<string> {
    if Trim(buf) == "" then [] else [Trim(buf)]
  }

  /** The sentences from `i` on, the current one having begun at `start`. */
  function SentencesFrom(s: string, start: nat, i: nat): seq<string>
    requires start <= i <= |s|
    decreases |s| - i
  {
    if i == |s| then Sentence(s[start..])
    else if EndsAt(s, i) then Sentence(s[start..i + 1]) + SentencesFrom(s, i + 1, i + 1)
    else SentencesFrom(s, start, i + 1)
  }

  function Sentences(s: string): seq<string> {
    SentencesFrom(s, 0, 0)
  }

  lemma SentenceInk(buf: string)
    ensures Ink(Concat(Sentence(buf))) == Ink(buf)
  {
    var lo, hi := TrimSplits(buf);
    if Trim(buf) == "" {
      InkOfSpace(buf);
    } else {
      assert [Trim(buf)][1..] == [];
      assert Concat([Trim(buf)]) == Trim(buf) + "" == Trim(buf);
    }
  }

  lemma {:induction false} SentencesInk(s: string, start: nat, i: nat)
    requires start <= i <= |s|
    ensures Ink(Concat(SentencesFrom(s, start, i))) == Ink(s[start..])
    decreases |s| - i
  {
    hide Ink, Concat, Trim;
    if i == |s| {
      SentenceInk(s[start..]);
    } else if EndsAt(s, i) {
      SentencesInk(s, i + 1, i + 1);
      SentenceInk(s[start..i + 1]);
      ConcatAppend(Sentence(s[start..i + 1]), SentencesFrom(s, i + 1, i + 1));
      InkConcat(Concat(Sentence(s[start..i + 1])), Concat(SentencesFrom(s, i + 1, i + 1)));
      assert s[start..] == s[start..i + 1] + s[i + 1..];
      InkConcat(s[start..i + 1], s[i + 1..]);
    } else {
      SentencesInk(s, start, i + 1);
    }
  }

  lemma NoSentenceMeansBlank(s: string)
    requires Sentences(s) == []
    ensures Trim(s) == ""
  {
    SentencesInk(s, 0, 0);
    assert s[0..] == s;
    NoInkMeansSpace(s);
    var lo, hi := TrimSplits(s);
  }

  lemma SentencesStep(s: string, start: nat, i: nat, out: seq<string>)
    requires start <= i < |s|
    ensures EndsAt(s, i) ==>
              (out + Sentence(s[start..i + 1])) + SentencesFrom(s, i + 1, i + 1) == out + SentencesFrom(s, start, i)
    ensures !EndsAt(s, i) ==> SentencesFrom(s, start, i + 1) == SentencesFrom(s, start, i)
    ensures s[start..i + 1] == s[start..i] + [s[i]]
  {
  }

  method SplitSentences(text: string) returns (out: seq<string>)
    ensures out == Sentences(text)
  {
    hide Trim, SentencesFrom;
    out := [];
    var buf := "";
    ghost var start := 0;
    var i := 0;
    while i < |text|
      invariant 0 <= start <= i <= |text|
      invariant buf == text[start..i]
      invariant out + SentencesFrom(text, start, i) == Sentences(text)
    {
      SentencesStep(text, start, i, out);
      var ch := text[i];
      buf := buf + [ch];
      var open := SpaceOrEndAt(text, i + 1);
      var isTerminal := IsMark(ch) || (IsEnding(ch) && open);
      i := i + 1;
      if isTerminal && (open || IsMark(ch)) {
        if IsEnding(ch) && !open {
          continue;
        }
        var s := Trim(buf);
        if s != "" {
          out := out + [s];
        }
        buf := "";
        start := i;
      }
    }
    LastSentence(text, start);
    var last := Trim(buf);
    if last != "" {
      out := out + [last];
    }
    if out == [] {
      NoSentenceMeansBlank(text);
    }
    if out == [] && Trim(text) != "" {
      out := [Trim(text)];
    }
  }

  lemma LastSentence(s: string, start: nat)
    requires start <= |s|
    ensures SentencesFrom(s, start, |s|) == Sentence(s[start..|s|])
  {
    assert s[start..] == s[start..|s|];
  }

  // ---- Grouping -----------------------------------------------------------------------------

  /** The group being filled: its text, where it begins, and where the next sentence is taken to be. */
  datatype Group = Group(buf: string, start: nat, cursor: nat)

  /** The sentence no longer fits. */
  predicate Overfull(g: Group, s: string, target: nat) {
    |g.buf| + |s| + 1 > target && |g.buf| > 0
  }

  function Flushed(g: Group): seq<Chunk> {
    Made(g.buf, g.start, g.start + |g.buf|)
  }

  /** After a flush: the last `overlap` characters stay. */
  function Carried(g: Group, overlap: nat): Group {
    var tail := Min(overlap, |g.buf|);
    Group(g.buf[|g.buf| - tail..], g.start + |g.buf| - tail, g.cursor)
  }

  /** The sentence appended, after a space if one is missing. */
  function Added(g: Group, s: string): Group {
    var spaced := g.buf != "" && g.buf[|g.buf| - 1] != ' ';
    var buf, cursor := if spaced then g.buf + " " else g.buf, if spaced then g.cursor + 1 else g.cursor;
    Group(buf + s, if buf == "" then cursor else g.start, cursor + |s|)
  }

  function GroupsFrom(sentences: seq<string>, g: Group, target: nat, overlap: nat): seq<Chunk> {
    if sentences == [] then Flushed(g)
    else if Overfull(g, sentences[0], target) then
      Flushed(g) + GroupsFrom(sentences[1..], Added(Carried(g, overlap), sentences[0]), target, overlap)
    else GroupsFrom(sentences[1..], Added(g, sentences[0]), target, overlap)
  }

  function Groups(sentences: seq<string>, target: nat, overlap: nat): seq<Chunk> {
    GroupsFrom(sentences, Group("", 0, 0), target, overlap)
  }

  lemma GroupsStep(sentences: seq<string>, i: nat, g: Group, target: nat, overlap: nat)
    requires i < |sentences|
    ensures
      var s, more := sentences[i], sentences[i + 1..];
      GroupsFrom(sentences[i..], g, target, overlap) ==
      if Overfull(g, s, target) then Flushed(g) + GroupsFrom(more, Added(Carried(g, overlap), s), target, overlap)
      else GroupsFrom(more, Added(g, s), target, overlap)
  {
    assert sentences[i..][0] == sentences[i] && sentences[i..][1..] == sentences[i + 1..];
  }

  method AddSentence(buf: string, start: nat, cursor: nat, s: string) returns (buf': string, start': nat, cursor': nat)
    ensures Group(buf', start', cursor') == Added(Group(buf, start, cursor), s)
  {
    buf', start', cursor' := buf, start, cursor;
    if buf' != "" && buf'[|buf'| - 1] != ' ' {
      buf' := buf' + " ";
      cursor' := cursor' + 1;
    }
    if buf' == "" {
      start' := cursor';
    }
    buf' := buf' + s;
    cursor' := cursor' + |s|;
  }

  method GroupSentences(sentences: seq<string>, target: nat, overlap: nat) returns (chunks: seq<Chunk>)
    ensures chunks == Groups(sentences, target, overlap)
  {
    hide Trim, Made, GroupsFrom, Added;
    chunks := [];
    var buf := "";
    var start: nat, cursor: nat := 0, 0;
    var i := 0;
    assert sentences[0..] == sentences;
    while i < |sentences|
      invariant 0 <= i <= |sentences|
      invariant chunks + GroupsFrom(sentences[i..], Group(buf, start, cursor), target, overlap) ==
                Groups(sentences, target, overlap)
    {
      var s := sentences[i];
      GroupsStep(sentences, i, Group(buf, start, cursor), target, overlap);
      if |buf| + |s| + 1 > target && |buf| > 0 {
        var end := start + |buf|;
        chunks := PushChunk(chunks, buf, start, end);
        var tail := Min(overlap, |buf|);
        buf := buf[|buf| - tail..];
        start := end - tail;
      }
      buf, start, cursor := AddSentence(buf, start, cursor, s);
      i := i + 1;
    }
    LastGroup(Group(buf, start, cursor), target, overlap);
    assert sentences[i..] == [];
    if Trim(buf) != "" {
      chunks := PushChunk(chunks, buf, start, start + |buf|);
    }
  }

  lemma LastGroup(g: Group, target: nat, overlap: nat)
    ensures GroupsFrom([], g, target, overlap) == Made(g.buf, g.start, g.start + |g.buf|)
    ensures Trim(g.buf) == "" ==> Made(g.buf, g.start, g.start + |g.buf|) == []
  {
  }

  // ---- Windows ------------------------------------------------------------------------------

  datatype Span = Span(lo: nat, hi: nat)

  function Stride(target: nat, overlap: nat): nat {
    Max(Minus(target, overlap), 1)
  }

  /** The windows over a text of length `total`, from `start` on. */
  function WindowsFrom(total: nat, start: nat, target: nat, overlap: nat): seq<Span>
    requires target > 0
    decreases total - start
  {
    if start >= total then []
    else
      var end := Min(start + target, total);
      [Span(start, end)] +
      if end >= total then [] else WindowsFrom(total, start + Stride(target, overlap), target, overlap)
  }

  /** One chunk for each window that is not blank. */
  function Cutouts(text: string, spans: seq<Span>, base: nat): seq<Chunk>
    requires forall w | w in spans :: w.lo <= w.hi <= |text|
  {
    if spans == [] then []
    else Made(text[spans[0].lo..spans[0].hi], base + spans[0].lo, base + spans[0].hi) + Cutouts(text, spans[1..], base)
  }

  lemma {:induction false} WindowsInside(total: nat, start: nat, target: nat, overlap: nat)
    requires target > 0
    ensures forall w | w in WindowsFrom(total, start, target, overlap) :: w.lo < w.hi <= total && w.hi - w.lo <= target
    decreases total - start
  {
    if start < total && start + target < total {
      WindowsInside(total, start + Stride(target, overlap), target, overlap);
    }
  }

  /** The chunks of the windows from `start` on. */
  function CutFrom(text: string, start: nat, target: nat, overlap: nat, base: nat): seq<Chunk>
    requires target > 0
  {
    WindowsInside(|text|, start, target, overlap);
    Cutouts(text, WindowsFrom(|text|, start, target, overlap), base)
  }

  function Windows(text: string, target: nat, overlap: nat, base: nat): seq<Chunk>
    requires target > 0
  {
    CutFrom(text, 0, target, overlap, base)
  }

  lemma CutoutsCons(text: string, first: Span, more: seq<Span>, base: nat)
    requires forall w | w in [first] + more :: w.lo <= w.hi <= |text|
    ensures forall w | w in more :: w in [first] + more
    ensures first in [first] + more
    ensures Cutouts(text, [first] + more, base) ==
            Made(text[first.lo..first.hi], base + first.lo, base + first.hi) + Cutouts(text, more, base)
  {
    assert ([first] + more)[0] == first && ([first] + more)[1..] == more;
  }

  lemma CutFromStep(text: string, start: nat, target: nat, overlap: nat, base: nat)
    requires target > 0 && start < |text|
    ensures
      var end := Min(start + target, |text|);
      CutFrom(text, start, target, overlap, base) ==
      Made(text[start..end], base + start, base + end) +
      if end >= |text| then [] else CutFrom(text, start + Stride(target, overlap), target, overlap, base)
  {
    hide Made;
    var end := Min(start + target, |text|);
    var more := if end >= |text| then [] else WindowsFrom(|text|, start + Stride(target, overlap), target, overlap);
    WindowsInside(|text|, start, target, overlap);
    assert WindowsFrom(|text|, start, target, overlap) == [Span(start, end)] + more;
    CutoutsCons(text, Span(start, end), more, base);
  }

  method CharWindow(text: string, target: nat, overlap: nat, base: nat) returns (out: seq<Chunk>, last: nat)
    requires target > 0
    ensures out == Windows(text, target, overlap, base) && last == base + |text|
  {
    hide Made, CutFrom;
    out := [];
    var start: nat, total := 0, |text|;
    var stride := Max(Minus(target, overlap), 1);
    if total == 0 {
      CutFromEmpty(target, overlap, base);
      assert text == "";
    }
    while start < total
      invariant total > 0 ==>
                  && start < total
                  && out + CutFrom(text, start, target, overlap, base) == Windows(text, target, overlap, base)
      invariant total == 0 ==> out == Windows(text, target, overlap, base)
      decreases total - start
    {
      CutFromStep(text, start, target, overlap, base);
      var end := Min(start + target, total);
      out := PushChunk(out, text[start..end], base + start, base + end);
      if end >= total {
        break;
      }
      start := start + stride;
    }
    last := base + total;
  }

  lemma CutFromEmpty(target: nat, overlap: nat, base: nat)
    requires target > 0
    ensures CutFrom("", 0, target, overlap, base) == []
  {
  }

  // ---- The whole text -----------------------------------------------------------------------

  function Limit(target: nat, overlap: nat): nat {
    target + Max(overlap, 1)
  }

  /** Chunks beyond the limit are cut into windows. */
  function Resized(chunks: seq<Chunk>, target: nat, overlap: nat): seq<Chunk>
    requires target > 0
  {
    if chunks == [] then []
    else
      (if |chunks[0].content| > Limit(target, overlap) then Windows(chunks[0].content, target, overlap, chunks[0].start)
       else [chunks[0]])
      + Resized(chunks[1..], target, overlap)
  }

  /** From offsets in a paragraph of length `len` to offsets in the text. */
  function Placed(c: Chunk, offset: nat, len: nat): Chunk {
    Chunk(c.content, c.start + offset, Min(c.end + offset, offset + len))
  }

  function PlacedAll(chunks: seq<Chunk>, offset: nat, len: nat): seq<Chunk> {
    if chunks == [] then [] else [Placed(chunks[0], offset, len)] + PlacedAll(chunks[1..], offset, len)
  }

  function ParagraphChunks(para: string, offset: nat, target: nat, overlap: nat): seq<Chunk>
    requires target > 0
  {
    if para == "" then []
    else if |para| <= target then Made(para, offset, offset + |para|)
    else PlacedAll(Resized(Groups(Sentences(para), target, overlap), target, overlap), offset, |para|)
  }

  /** The chunks of the first `n` paragraphs. */
  function ChunksOf(paras: seq<string>, n: nat, target: nat, overlap: nat): seq<Chunk>
    requires target > 0 && n <= |paras|
  {
    if n == 0 then []
    else ChunksOf(paras, n - 1, target, overlap) + ParagraphChunks(paras[n - 1], Offset(paras, n - 1), target, overlap)
  }

  function Chunks(text: string, target: nat, overlap: nat): seq<Chunk> {
    if target == 0 then []
    else
      var paras := Paragraphs(Normalized(text));
      ChunksOf(paras, |paras|, target, overlap)
  }

  method ResizeChunks(groups: seq<Chunk>, target: nat, overlap: nat) returns (out: seq<Chunk>)
    requires target > 0
    ensures out == Resized(groups, target, overlap)
  {
    hide Windows;
    out := [];
    var i := 0;
    while i < |groups|
      invariant 0 <= i <= |groups|
      invariant out + Resized(groups[i..], target, overlap) == Resized(groups, target, overlap)
    {
      var g := groups[i];
      assert groups[i..][0] == g && groups[i..][1..] == groups[i + 1..];
      if |g.content| > target + Max(overlap, 1) {
        var windows, _ := CharWindow(g.content, target, overlap, g.start);
        out := out + windows;
      } else {
        out := out + [g];
      }
      i := i + 1;
    }
    assert groups[i..] == [];
  }

  method PlaceChunks(chunks: seq<Chunk>, paraChunks: seq<Chunk>, paraStart: nat, paraEnd: nat) returns (out: seq<Chunk>)
    requires paraStart <= paraEnd
    ensures out == chunks + PlacedAll(paraChunks, paraStart, paraEnd - paraStart)
  {
    out := chunks;
    var i := 0;
    while i < |paraChunks|
      invariant 0 <= i <= |paraChunks|
      invariant out + PlacedAll(paraChunks[i..], paraStart, paraEnd - paraStart) ==
                chunks + PlacedAll(paraChunks, paraStart, paraEnd - paraStart)
    {
      var c := paraChunks[i];
      assert paraChunks[i..][0] == c && paraChunks[i..][1..] == paraChunks[i + 1..];
      var start, end := c.start + paraStart, c.end + paraStart;
      if end > paraEnd {
        end := paraEnd;
      }
      out := out + [Chunk(c.content, start, end)];
      i := i + 1;
    }
    assert paraChunks[i..] == [];
  }

  lemma BlankText(input: string)
    requires Trim(input) == "" || Normalized(input) == ""
    ensures Normalized(input) == "" && Paragraphs("") == [""]
    ensures forall target, overlap :: Chunks(input, target, overlap) == []
  {
    var lo, hi := TrimSplits(input);
    if Trim(input) == "" {
      NormalizedSpace(input);
    }
    var paras := [""];
    assert Paragraphs("") == paras;
    forall target: nat, overlap
      ensures Chunks(input, target, overlap) == []
    {
      if target > 0 {
        assert ChunksOf(paras, 1, target, overlap) == ChunksOf(paras, 0, target, overlap) + [];
      }
    }
  }

  method AddParagraph(chunks: seq<Chunk>, para: string, paraStart: nat, target: nat,
                      overlap: nat) returns (out: seq<Chunk>)
    requires target > 0 && para != ""
    ensures out == chunks + ParagraphChunks(para, paraStart, target, overlap)
  {
    hide Made, Groups, Sentences, Resized, PlacedAll;
    var paraEnd := paraStart + |para|;
    if |para| <= target {
      out := PushChunk(chunks, para, paraStart, paraEnd);
    } else {
      var sentences := SplitSentences(para);
      var groups := GroupSentences(sentences, target, overlap);
      var resized := ResizeChunks(groups, target, overlap);
      out := PlaceChunks(chunks, resized, paraStart, paraEnd);
    }
  }

  method ChunkText(input: string, target: nat, overlap: nat) returns (chunks: seq<Chunk>)
    ensures chunks == Chunks(input, target, overlap)
  {
    hide Trim, Join, ParagraphChunks, Paragraphs, Normalized;
    if Trim(input) == "" || target == 0 {
      if target > 0 { BlankText(input); }
      return [];
    }
    var normalized := NormalizeKorean(input);
    if normalized == "" {
      BlankText(input);
      return [];
    }
    chunks := [];
    var cursor: nat, total := 0, |normalized|;
    var paras := Paragraphs(normalized);
    ParagraphsJoin(normalized);
    var i := 0;
    while i < |paras|
      invariant 0 <= i <= |paras|
      invariant i < |paras| ==> cursor == Offset(paras, i)
      invariant chunks == ChunksOf(paras, i, target, overlap)
    {
      var para := paras[i];
      OffsetIsExact(paras, i);
      var found := FindCharIndex(normalized, para, cursor);
      var paraStart := if found.Some? then found.value else cursor;
      // The search lands on the cursor, which is the true offset of the paragraph.
      assert paraStart == Offset(paras, i);
      var paraEnd := paraStart + |para|;
      i := i + 1;
      if |para| == 0 {
        EmptyParagraph(paraStart, target, overlap);
        cursor := paraEnd + 2;
        continue;
      }
      chunks := AddParagraph(chunks, para, paraStart, target, overlap);
      cursor := paraEnd + 2;
      if cursor > total {
        cursor := total;
      }
    }
  }

  lemma EmptyParagraph(offset: nat, target: nat, overlap: nat)
    requires target > 0
    ensures ParagraphChunks("", offset, target, overlap) == []
  {
  }
}
