/**
  The offsets of chunks: exact for grouped sentences when there is an overlap and every mark is followed by
  white space, and otherwise in general not.
*/
module ChunkOffsets {
  import opened Text
  import opened Normalize
  import opened Chunker

  // ---- Normalised paragraphs ----------------------------------------------------------------

  /** Single spaces between ink, and no other white space. */
  predicate Tidy(s: string) {
    forall i | 0 <= i < |s| && IsSpace(s[i]) ::
        s[i] == ' ' && 0 < i < |s| - 1 && !IsSpace(s[i - 1]) && !IsSpace(s[i + 1])
  }

  predicate AllTidy(paras: seq<string>) {
    forall p | p in paras :: Tidy(p)
  }

  function Last(paras: seq<string>): string
    requires paras != []
  {
    paras[|paras| - 1]
  }

  function Extended(paras: seq<string>, more: string): seq<string>
    requires paras != []
  {
    paras[..|paras| - 1] + [Last(paras) + more]
  }

  predicate EndsCalm(s: string) {
    s != "" ==> s[|s| - 1] != '\n'
  }

  lemma FirstBreakStays(a: string, b: string, p: nat)
    requires FindLf(a, 0) == Some(p)
    ensures FindLf(a + b, 0) == Some(p)
    ensures (a + b)[..p] == a[..p] && (a + b)[p + 2..] == a[p + 2..] + b
  {
    assert LfAt(a + b, p);
    assert forall i: nat | i < p :: LfAt(a + b, i) ==> LfAt(a, i);
  }

  /** Text without a newline extends the last paragraph. */
  lemma {:induction false} ParagraphsExtend(s: string, more: string)
    requires '\n' !in more
    ensures Paragraphs(s + more) == Extended(Paragraphs(s), more)
    decreases |s|
  {
    var f := FindLf(s, 0);
    if f.Some? {
      var p := f.value;
      ParagraphsExtend(s[p + 2..], more);
      FirstBreakStays(s, more, p);
      ExtendCons(s[..p], Paragraphs(s[p + 2..]), more);
    } else {
      NoNewBreak(s, more);
    }
  }

  lemma NoNewBreak(s: string, more: string)
    requires FindLf(s, 0).None? && '\n' !in more
    ensures FindLf(s + more, 0).None?
  {
    var t := s + more;
    forall i: nat
      ensures !LfAt(t, i)
    {
      if LfAt(t, i) {
        assert t[i + 1] == '\n';
        assert LfAt(s, i);
      }
    }
  }

  lemma ExtendCons(first: string, paras: seq<string>, more: string)
    requires paras != []
    ensures Extended([first] + paras, more) == [first] + Extended(paras, more)
  {
  }

  /** A paragraph break behind ink, or behind another break, begins an empty paragraph. */
  lemma {:induction false} ParagraphsBreak(s: string)
    requires EndsCalm(Last(Paragraphs(s)))
    ensures Paragraphs(s + "\n\n") == Paragraphs(s) + [""]
    decreases |s|
  {
    hide IsSpace;
    var f := FindLf(s, 0);
    if f.Some? {
      var p := f.value;
      FirstBreakStays(s, "\n\n", p);
      ParagraphsCons(s, p);
      ParagraphsBreak(s[p + 2..]);
      ParagraphsCons(s + "\n\n", p);
      ConsAppend(s[..p], Paragraphs(s[p + 2..]), [""]);
    } else {
      BreakAtEnd(s);
    }
  }

  lemma ParagraphsCons(s: string, p: nat)
    requires FindLf(s, 0) == Some(p)
    ensures p + 2 <= |s| && Paragraphs(s) == [s[..p]] + Paragraphs(s[p + 2..])
    ensures Last(Paragraphs(s)) == Last(Paragraphs(s[p + 2..]))
  {
    var more := Paragraphs(s[p + 2..]);
    LastOfCons(s[..p], more);
  }

  lemma LastOfCons(first: string, more: seq<string>)
    requires more != []
    ensures Last([first] + more) == Last(more)
  {
  }

  lemma ConsAppend(first: string, rest: seq<string>, more: seq<string>)
    ensures [first] + (rest + more) == ([first] + rest) + more
  {
  }

  lemma BreakAtEnd(s: string)
    requires FindLf(s, 0).None? && EndsCalm(s)
    ensures Paragraphs(s + "\n\n") == [s, ""]
  {
    var t := s + "\n\n";
    assert LfAt(t, |s|);
    forall i: nat | i < |s|
      ensures !LfAt(t, i)
    {
      assert t[i] == s[i] && (i + 1 < |s| ==> t[i + 1] == s[i + 1]);
      assert !LfAt(s, i);
    }
    assert t[..|s|] == s && t[|s| + 2..] == "";
  }

  lemma {:induction false} ParagraphsRepeat(s: string, k: nat)
    requires EndsCalm(Last(Paragraphs(s))) && AllTidy(Paragraphs(s))
    ensures AllTidy(Paragraphs(s + Repeat(k)))
    ensures k > 0 ==> Last(Paragraphs(s + Repeat(k))) == ""
    ensures EndsCalm(Last(Paragraphs(s + Repeat(k))))
  {
    hide Paragraphs, Tidy;
    if k == 0 {
      assert s + Repeat(0) == s;
    } else {
      ParagraphsRepeat(s, k - 1);
      var before := s + Repeat(k - 1);
      ParagraphsBreak(before);
      Assoc(s, Repeat(k - 1), "\n\n");
      EmptyIsTidy(Paragraphs(before));
    }
  }

  lemma EmptyIsTidy(paras: seq<string>)
    requires AllTidy(paras)
    ensures AllTidy(paras + [""])
  {
    assert forall p | p in paras + [""] :: p in paras || p == "";
  }

  /** The paragraphs so far are tidy, and the last one ends in ink. */
  predicate InOrder(paras: seq<string>) {
    paras != [] && AllTidy(paras) && Last(paras) != "" && !IsSpace(Last(paras)[|Last(paras)| - 1])
  }

  lemma ExtendTidy(paras: seq<string>, more: string)
    requires paras != [] && AllTidy(paras) && more != "" && Tidy(Last(paras) + more) && !IsSpace(more[|more| - 1])
    ensures InOrder(Extended(paras, more))
  {
    var r := Extended(paras, more);
    forall p | p in r ensures Tidy(p) {
      assert p in paras || p == Last(paras) + more;
    }
  }

  lemma WordIsTidy(word: string)
    requires NoSpace(word)
    ensures Tidy(word) && '\n' !in word
  {
    assert forall c | c in word :: !IsSpace(c);
  }

  lemma JoinedIsTidy(a: string, word: string)
    requires Tidy(a) && a != "" && !IsSpace(a[|a| - 1]) && NoSpace(word) && word != ""
    ensures Tidy(a + " " + word)
  {
    var t := a + " " + word;
    assert forall i | |a| < i < |t| :: t[i] == word[i - |a| - 1];
    forall i | 0 <= i < |t| && IsSpace(t[i])
      ensures t[i] == ' ' && 0 < i < |t| - 1 && !IsSpace(t[i - 1]) && !IsSpace(t[i + 1])
    {
      if i < |a| {
        assert t[i] == a[i];
        assert t[i - 1] == a[i - 1] && t[i + 1] == a[i + 1];
      } else {
        assert t[i - 1] == a[i - 1] && t[i + 1] == word[0];
      }
    }
  }

  lemma NextWordInLine(s: string, word: string)
    requires InOrder(Paragraphs(s)) && NoSpace(word) && word != ""
    ensures InOrder(Paragraphs(s + (" " + word)))
  {
    hide Paragraphs, Tidy;
    var paras := Paragraphs(s);
    WordIsTidy(word);
    assert Last(paras) in paras;
    ParagraphsExtend(s, " " + word);
    JoinedIsTidy(Last(paras), word);
    Assoc(Last(paras), " ", word);
    ExtendTidy(paras, " " + word);
  }

  lemma NextWordInParagraph(s: string, k: nat, word: string)
    requires InOrder(Paragraphs(s)) && k > 0 && NoSpace(word) && word != ""
    ensures InOrder(Paragraphs((s + Repeat(k)) + word))
  {
    hide Paragraphs, Tidy, Repeat;
    WordIsTidy(word);
    ParagraphsRepeat(s, k);
    ParagraphsExtend(s + Repeat(k), word);
    assert "" + word == word;
    ExtendTidy(Paragraphs(s + Repeat(k)), word);
  }

  lemma NextWord(s: string, gap: string, word: string)
    requires InOrder(Paragraphs(s)) && gap != "" && NoSpace(word) && word != ""
    ensures InOrder(Paragraphs(s + Shape(gap) + word))
  {
    hide Paragraphs, InOrder, Repeat, Breaks;
    if Breaks(gap) == 0 {
      NextWordInLine(s, word);
      Assoc(s, " ", word);
    } else {
      NextWordInParagraph(s, Breaks(gap), word);
    }
  }

  lemma {:induction false} WeaveInOrder(words: seq<string>, gaps: seq<string>)
    requires Woven(words, gaps)
    ensures InOrder(Paragraphs(Weave(words, Shapes(gaps))))
    decreases |gaps|
  {
    hide InOrder, Paragraphs, Shape;
    if gaps == [] {
      OneWord(words[0]);
    } else {
      var n := |gaps| - 1;
      WeaveInOrder(words[..n + 1], gaps[..n]);
      WeaveLast(words, gaps);
      NextWord(Weave(words[..n + 1], Shapes(gaps[..n])), gaps[n], words[n + 1]);
    }
  }

  lemma OneWord(word: string)
    requires NoSpace(word) && word != ""
    ensures InOrder(Paragraphs(word))
  {
    WordIsTidy(word);
    assert Paragraphs(word) == [word] by {
      assert forall i: nat :: !LfAt(word, i);
    }
  }

  /** The paragraphs of normalised text are tidy. */
  lemma ParagraphsAreTidy(text: string)
    ensures AllTidy(Paragraphs(Normalized(text)))
  {
    var lead, words, gaps, trail := Unweave(text);
    if AllSpace(text) {
      NormalizedSpace(text);
    } else {
      NormalizedWeave(lead, words, gaps, trail);
      WeaveInOrder(words, gaps);
    }
  }

  // ---- Where sentences lie ------------------------------------------------------------------

  /** Every mark is followed by white space or by the end of the paragraph. */
  predicate MarksClosed(s: string) {
    forall i | 0 <= i < |s| && IsMark(s[i]) :: SpaceOrEndAt(s, i + 1)
  }

  /** A sentence boundary: the start, or a place behind ink and before a space, the end, or ink behind a mark. */
  predicate Boundary(s: string, p: nat) {
    p <= |s| && (p > 0 ==> !IsSpace(s[p - 1]) && (p < |s| && !IsSpace(s[p]) ==> IsMark(s[p - 1])))
  }

  /** The next sentence follows without a space. */
  predicate Touches(s: string, p: nat) {
    0 < p < |s| && !IsSpace(s[p])
  }

  /** Where the sentence behind boundary `p` starts. */
  function Behind(s: string, p: nat): nat {
    if p < |s| && IsSpace(s[p]) then p + 1 else p
  }

  /** The sentence lies behind boundary `p`, in the middle of ink. */
  predicate LiesAt(first: string, s: string, p: nat) {
    && p < |s| && first != "" && Behind(s, p) + |first| <= |s| && s[Behind(s, p)..Behind(s, p) + |first|] == first
    && !IsSpace(first[0]) && !IsSpace(first[|first| - 1])
  }

  /** The sentences lie in `s` one after the other from boundary `p` on, with at most one space before each. */
  predicate Aligned(sentences: seq<string>, s: string, p: nat) {
    && Boundary(s, p)
    && if sentences == [] then p == |s|
       else LiesAt(sentences[0], s, p) && Aligned(sentences[1..], s, Behind(s, p) + |sentences[0]|)
  }

  /** The text from a boundary to a later piece of ink trims to what lies behind the space. */
  lemma TrimFromBoundary(s: string, p: nat, end: nat)
    requires Tidy(s) && Boundary(s, p) && p < end <= |s| && !IsSpace(s[end - 1])
    ensures Behind(s, p) < end && !IsSpace(s[Behind(s, p)])
    ensures Trim(s[p..end]) == s[Behind(s, p)..end]
  {
    var core := s[Behind(s, p)..end];
    if IsSpace(s[p]) {
      assert end != p + 1;
      TrimCore(" ", core, "");
      assert " " + core + "" == s[p..end];
    } else {
      TrimCore("", core, "");
      assert "" + core + "" == s[p..end];
    }
  }

  lemma AlignedCons(first: string, rest: seq<string>, s: string, p: nat, end: nat)
    requires Boundary(s, p) && p < |s| && Behind(s, p) < end <= |s| && first == s[Behind(s, p)..end]
    requires !IsSpace(s[Behind(s, p)]) && !IsSpace(s[end - 1]) && Aligned(rest, s, end)
    ensures Aligned([first] + rest, s, p)
  {
    assert ([first] + rest)[1..] == rest;
  }

  /** Behind a sentence's end lies a boundary. */
  lemma EndIsBoundary(s: string, i: nat)
    requires i < |s| && EndsAt(s, i)
    ensures Boundary(s, i + 1) && !IsSpace(s[i])
  {
  }

  lemma LastIsInk(s: string)
    requires Tidy(s) && s != ""
    ensures !IsSpace(s[|s| - 1])
  {
  }

  /** The sentence between two boundaries, set in front of the sentences behind it. */
  lemma SentenceAligned(s: string, start: nat, end: nat, rest: seq<string>)
    requires Tidy(s) && Boundary(s, start) && start < end <= |s| && !IsSpace(s[end - 1])
    requires Aligned(rest, s, end)
    ensures Sentence(s[start..end]) == [s[Behind(s, start)..end]]
    ensures Aligned(Sentence(s[start..end]) + rest, s, start)
  {
    hide Trim, Aligned, Tidy;
    TrimFromBoundary(s, start, end);
    AlignedCons(s[Behind(s, start)..end], rest, s, start, end);
  }

  lemma AlignedEnd(s: string)
    requires Boundary(s, |s|)
    ensures Aligned([], s, |s|) && Sentence(s[|s|..]) == []
  {
    assert s[|s|..] == "";
  }

  lemma TailSentence(s: string, start: nat)
    requires start <= |s|
    ensures SentencesFrom(s, start, |s|) == Sentence(s[start..|s|]) + []
  {
    assert s[start..] == s[start..|s|];
  }

  lemma {:induction false} SentencesAreAligned(s: string, start: nat, i: nat)
    requires s != "" && Tidy(s) && Boundary(s, start) && start <= i <= |s|
    ensures Aligned(SentencesFrom(s, start, i), s, start)
    decreases |s| - i
  {
    hide Trim, Sentence, Aligned, Tidy, EndsAt;
    if i == |s| {
      TailSentence(s, start);
      LastIsInk(s);
      AlignedEnd(s);
      if start < |s| {
        SentenceAligned(s, start, |s|, []);
      }
    } else if EndsAt(s, i) {
      EndIsBoundary(s, i);
      SentencesAreAligned(s, i + 1, i + 1);
      SentenceAligned(s, start, i + 1, SentencesFrom(s, i + 1, i + 1));
    } else {
      SentencesAreAligned(s, start, i + 1);
    }
  }

  // ---- Open marks and touching sentences ----------------------------------------------------

  /** Some sentence follows without a space. */
  predicate SomeTouch(sentences: seq<string>, s: string, p: nat) {
    sentences != [] && (Touches(s, p) || SomeTouch(sentences[1..], s, Behind(s, p) + |sentences[0]|))
  }

  /** A mark at or behind `i` is followed by ink. */
  ghost predicate OpenFrom(s: string, i: nat) {
    exists j | i <= j < |s| :: IsMark(s[j]) && !SpaceOrEndAt(s, j + 1)
  }

  lemma TouchCons(s: string, start: nat, end: nat, rest: seq<string>)
    requires start < end <= |s| && Behind(s, start) < end
    ensures SomeTouch([s[Behind(s, start)..end]] + rest, s, start) <==> Touches(s, start) || SomeTouch(rest, s, end)
  {
    assert ([s[Behind(s, start)..end]] + rest)[1..] == rest;
  }

  lemma NextOpen(s: string, i: nat)
    requires i < |s|
    ensures OpenFrom(s, i) <==> (IsMark(s[i]) && !SpaceOrEndAt(s, i + 1)) || OpenFrom(s, i + 1)
    ensures EndsAt(s, i) ==> (Touches(s, i + 1) <==> IsMark(s[i]) && !SpaceOrEndAt(s, i + 1))
    ensures !EndsAt(s, i) ==> !IsMark(s[i])
  {
  }

  /** The sentences touch exactly at the open marks. */
  lemma {:induction false} TouchAtOpenMarks(s: string, start: nat, i: nat)
    requires s != "" && Tidy(s) && Boundary(s, start) && start <= i <= |s|
    ensures SomeTouch(SentencesFrom(s, start, i), s, start) <==> Touches(s, start) || OpenFrom(s, i)
    decreases |s| - i
  {
    hide Trim, Sentence, Tidy, EndsAt, Aligned, Touches, IsMark, SomeTouch;
    if i == |s| {
      TailSentence(s, start);
      LastIsInk(s);
      AlignedEnd(s);
      NoneTouch(s);
      if start < |s| {
        SentenceAligned(s, start, |s|, []);
        TouchCons(s, start, |s|, []);
        TrimFromBoundary(s, start, |s|);
      }
    } else {
      NextOpen(s, i);
      if EndsAt(s, i) {
        EndIsBoundary(s, i);
        SentencesAreAligned(s, i + 1, i + 1);
        SentenceAligned(s, start, i + 1, SentencesFrom(s, i + 1, i + 1));
        TrimFromBoundary(s, start, i + 1);
        TouchCons(s, start, i + 1, SentencesFrom(s, i + 1, i + 1));
        TouchAtOpenMarks(s, i + 1, i + 1);
      } else {
        TouchAtOpenMarks(s, start, i + 1);
      }
    }
  }

  lemma NoneTouch(s: string)
    ensures !SomeTouch([], s, |s|) && !Touches(s, |s|) && !OpenFrom(s, |s|)
  {
  }

  /** Some sentence of the paragraph follows without a space exactly when some mark is open. */
  lemma ClosedMeansSpaced(para: string)
    requires para != "" && Tidy(para)
    ensures MarksClosed(para) <==> !SomeTouch(Sentences(para), para, 0)
  {
    TouchAtOpenMarks(para, 0, 0);
    hide SomeTouch, SpaceOrEndAt;
    assert !MarksClosed(para) <==> OpenFrom(para, 0);
  }

  // ---- Groups on track ----------------------------------------------------------------------

  /** The chunk is the trimmed text between its offsets. */
  predicate Exact(c: Chunk, s: string) {
    c.start <= c.end <= |s| && c.content == Trim(s[c.start..c.end])
  }

  ghost predicate AllExact(chunks: seq<Chunk>, s: string) {
    forall c | c in chunks :: Exact(c, s)
  }

  lemma AllExactConcat(a: seq<Chunk>, b: seq<Chunk>, s: string)
    ensures AllExact(a + b, s) <==> AllExact(a, s) && AllExact(b, s)
  {
    hide Exact;
    assert forall c :: c in a + b <==> c in a || c in b;
  }

  predicate EndsInInk(s: string) {
    s != "" && !IsSpace(s[|s| - 1])
  }

  /** The group's text is the text of the paragraph up to its cursor, which is boundary `p`. */
  predicate OnTrack(g: Group, s: string, p: nat) {
    && g.cursor == p && g.start + |g.buf| == p && p <= |s| && g.buf == s[g.start..p]
    && (if g.buf == "" then p == 0 else EndsInInk(g.buf))
  }

  lemma FlushedExact(g: Group, s: string, p: nat)
    requires OnTrack(g, s, p)
    ensures AllExact(Flushed(g), s)
  {
  }

  /** A space goes between ink and the next sentence. */
  lemma AddedAfterInk(g: Group, first: string)
    requires g.buf != "" ==> EndsInInk(g.buf)
    ensures g.buf == "" ==> Added(g, first) == Group(first, g.cursor, g.cursor + |first|)
    ensures g.buf != "" ==> Added(g, first) == Group(g.buf + " " + first, g.start, g.cursor + 1 + |first|)
  {
    if g.buf == "" { assert "" + first == first; }
  }

  lemma AcrossTheSpace(s: string, lo: nat, p: nat, end: nat)
    requires lo <= p < end <= |s| && s[p] == ' '
    ensures s[lo..p] + " " + s[p + 1..end] == s[lo..end]
  {
  }

  lemma EndsLike(a: string, first: string)
    requires EndsInInk(first)
    ensures EndsInInk(a + first) && EndsInInk(a + " " + first)
  {
  }

  lemma SpaceAt(s: string, p: nat)
    requires Tidy(s) && 0 < p < |s| && !Touches(s, p)
    ensures s[p] == ' ' && Behind(s, p) == p + 1
  {
  }

  lemma FirstOnTrack(s: string, first: string)
    requires Tidy(s) && LiesAt(first, s, 0)
    ensures OnTrack(Added(Group("", 0, 0), first), s, Behind(s, 0) + |first|)
  {
    AddedAfterInk(Group("", 0, 0), first);
  }

  lemma AddedOnTrack(g: Group, s: string, p: nat, first: string)
    requires Tidy(s) && OnTrack(g, s, p) && g.buf != "" && LiesAt(first, s, p) && !Touches(s, p)
    ensures OnTrack(Added(g, first), s, Behind(s, p) + |first|)
  {
    SpaceAt(s, p);
    AddedAfterInk(g, first);
    EndsLike(g.buf, first);
    hide Tidy, Added, EndsInInk, IsSpace, Touches, Behind;
    AcrossTheSpace(s, g.start, p, p + 1 + |first|);
  }

  lemma CarriedOnTrack(g: Group, s: string, p: nat, overlap: nat)
    requires OnTrack(g, s, p) && g.buf != "" && overlap > 0
    ensures OnTrack(Carried(g, overlap), s, p) && Carried(g, overlap).buf != ""
  {
    hide IsSpace;
    var k := |g.buf| - Min(overlap, |g.buf|);
    TailOfSlice(s, g.start, p, k);
    assert g.buf[k..][|g.buf| - k - 1] == g.buf[|g.buf| - 1];
  }

  lemma TailOfSlice(s: string, lo: nat, hi: nat, k: nat)
    requires lo + k <= hi <= |s|
    ensures s[lo..hi][k..] == s[lo + k..hi]
  {
  }

  // ---- Groups off track ---------------------------------------------------------------------

  /** The group's text has a space where the paragraph, at `e`, goes on in ink. */
  predicate Broken(g: Group, s: string, e: nat) {
    && g.start < e < |s| && e < g.start + |g.buf| && EndsInInk(g.buf)
    && g.buf[..e - g.start] == s[g.start..e] && !IsSpace(s[e - 1])
    && g.buf[e - g.start] == ' ' && !IsSpace(s[e])
  }

  lemma TouchBreaks(g: Group, s: string, p: nat, first: string)
    requires OnTrack(g, s, p) && g.buf != "" && Touches(s, p) && EndsInInk(first)
    ensures Broken(Added(g, first), s, p)
  {
    AddedAfterInk(g, first);
    EndsLike(g.buf, first);
    assert g.buf[|g.buf| - 1] == s[p - 1];
    hide IsSpace, Added;
    var buf := g.buf + " " + first;
    assert buf[..|g.buf|] == g.buf;
  }

  lemma AddedBroken(g: Group, s: string, e: nat, first: string)
    requires Broken(g, s, e) && EndsInInk(first)
    ensures Broken(Added(g, first), s, e)
  {
    AddedAfterInk(g, first);
    EndsLike(g.buf, first);
    hide IsSpace, Added, EndsInInk;
    var buf := g.buf + " " + first;
    assert buf[..e - g.start] == g.buf[..e - g.start];
  }

  /** Two texts that agree up to a piece of ink are trimmed alike on the left. */
  lemma SameStart(a: string, b: string, n: nat, lo: nat, lo': nat)
    requires 0 < n <= |a| && n <= |b| && a[..n] == b[..n] && !IsSpace(a[n - 1])
    requires lo <= |a| && AllSpace(a[..lo]) && (lo < |a| ==> !IsSpace(a[lo]))
    requires lo' <= |b| && AllSpace(b[..lo']) && (lo' < |b| ==> !IsSpace(b[lo']))
    ensures lo == lo' < n
  {
    hide IsSpace;
    assert forall i | 0 <= i < n :: a[i] == a[..n][i] == b[..n][i] == b[i];
    assert forall i | 0 <= i < lo :: IsSpace(a[..lo][i]) && a[..lo][i] == a[i];
    assert forall i | 0 <= i < lo' :: IsSpace(b[..lo'][i]) && b[..lo'][i] == b[i];
  }

  lemma TrimLeft(s: string) returns (lo: nat, hi: nat)
    ensures lo <= hi <= |s| && Trim(s) == s[lo..hi] && AllSpace(s[..lo]) && AllSpace(s[hi..])
    ensures lo < hi ==> !IsSpace(s[lo])
    ensures !AllSpace(s) ==> lo < hi
    ensures EndsInInk(s) ==> hi == |s|
  {
    lo, hi := TrimSplits(s);
    hide IsSpace, Trim;
    if lo < hi { assert s[lo] == Trim(s)[0]; }
    if hi < |s| { assert s[hi..][|s| - 1 - hi] == s[|s| - 1]; }
  }

  lemma BrokenTrims(buf: string, t: string, n: nat)
    requires 0 < n < |buf| && n < |t| && buf[..n] == t[..n] && !IsSpace(buf[n - 1])
    requires EndsInInk(buf) && buf[n] == ' ' && !IsSpace(t[n])
    ensures Trim(buf) != Trim(t) && Trim(buf) != ""
  {
    var lo, hi := TrimLeft(buf);
    var lo', hi' := TrimLeft(t);
    assert t[n - 1] == t[..n][n - 1] == buf[..n][n - 1] == buf[n - 1];
    hide Trim;
    assert !AllSpace(buf) && !AllSpace(t);
    SameStart(buf, t, n, lo, lo');
    assert Trim(buf)[n - lo] == ' ';
    if n < hi' {
      assert Trim(t)[n - lo] == t[n];
    }
  }

  lemma FlushedBroken(g: Group, s: string, e: nat)
    requires Broken(g, s, e)
    ensures !AllExact(Flushed(g), s)
  {
    var end := g.start + |g.buf|;
    var n := e - g.start;
    hide IsSpace, Trim;
    assert g.buf[n - 1] == g.buf[..n][n - 1] == s[g.start..e][n - 1] == s[e - 1];
    if end <= |s| {
      var t := s[g.start..end];
      assert t[..n] == s[g.start..e] && t[n] == s[e];
      BrokenTrims(g.buf, t, n);
    } else {
      BrokenTrims(g.buf, s[g.start..], n);
    }
    assert Chunk(Trim(g.buf), g.start, end) in Flushed(g);
  }

  /** The group begins at a space, but its text does not. */
  predicate Late(g: Group, s: string) {
    g.start < |s| && IsSpace(s[g.start]) && g.buf != "" && !IsSpace(g.buf[0]) && EndsInInk(g.buf)
  }

  lemma AddedLate(g: Group, s: string, first: string)
    requires Late(g, s) && EndsInInk(first)
    ensures Late(Added(g, first), s)
  {
    AddedAfterInk(g, first);
    EndsLike(g.buf, first);
  }

  lemma FlushedLate(g: Group, s: string)
    requires Late(g, s)
    ensures !AllExact(Flushed(g), s)
  {
    TrimmedIsFixed(g.buf);
    var end := g.start + |g.buf|;
    if end <= |s| {
      var t := s[g.start..end];
      assert t[0] == s[g.start];
      var lo, hi := TrimLeft(t);
      assert |Trim(t)| < |g.buf|;
    }
    assert Chunk(g.buf, g.start, end) in Flushed(g);
  }

  /** The sentences all end in ink. */
  predicate InkEnds(sentences: seq<string>) {
    forall x | x in sentences :: EndsInInk(x)
  }

  lemma {:induction false} AlignedInkEnds(sentences: seq<string>, s: string, p: nat)
    requires Aligned(sentences, s, p)
    ensures InkEnds(sentences)
    decreases |sentences|
  {
    hide IsSpace, Boundary, Behind;
    if sentences != [] {
      AlignedInkEnds(sentences[1..], s, Behind(s, p) + |sentences[0]|);
      assert sentences == [sentences[0]] + sentences[1..];
    }
  }

  /** A group off track is flushed at last, and its chunk is not exact. */
  lemma {:induction false} OffTrack(sentences: seq<string>, g: Group, s: string, e: nat, target: nat, overlap: nat)
    requires InkEnds(sentences) && (Broken(g, s, e) || Late(g, s))
    ensures !AllExact(GroupsFrom(sentences, g, target, overlap), s)
    decreases |sentences|
  {
    hide AllExact, Broken, Late, Added, Carried, Flushed, EndsInInk;
    if Broken(g, s, e) { FlushedBroken(g, s, e); } else { FlushedLate(g, s); }
    if sentences != [] {
      var first, more := sentences[0], sentences[1..];
      assert first in sentences && forall x | x in more :: x in sentences;
      if Overfull(g, first, target) {
        AllExactConcat(Flushed(g), GroupsFrom(more, Added(Carried(g, overlap), first), target, overlap), s);
      } else {
        if Broken(g, s, e) { AddedBroken(g, s, e, first); } else { AddedLate(g, s, first); }
        OffTrack(more, Added(g, first), s, e, target, overlap);
      }
    }
  }

  // ---- When groups are exact ----------------------------------------------------------------

  lemma LaidOut(sentences: seq<string>, s: string, p: nat)
    requires Aligned(sentences, s, p) && sentences != []
    ensures LiesAt(sentences[0], s, p) && EndsInInk(sentences[0]) && InkEnds(sentences[1..])
    ensures Aligned(sentences[1..], s, Behind(s, p) + |sentences[0]|)
    ensures p == 0 ==> !Touches(s, p)
  {
    AlignedInkEnds(sentences[1..], s, Behind(s, p) + |sentences[0]|);
  }

  lemma StartsEmpty(g: Group, s: string, p: nat)
    requires OnTrack(g, s, p) && g.buf == ""
    ensures p == 0 && g == Group("", 0, 0)
  {
  }

  /** With an overlap the groups are exact if and only if every sentence but the first follows a space. */
  lemma {:induction false} OverlapExact(sentences: seq<string>, g: Group, s: string, p: nat, target: nat, overlap: nat)
    requires Tidy(s) && Aligned(sentences, s, p) && OnTrack(g, s, p) && overlap > 0
    ensures AllExact(GroupsFrom(sentences, g, target, overlap), s) <==> !SomeTouch(sentences, s, p)
    decreases |sentences|
  {
    hide AllExact, OnTrack, Added, Carried, Flushed, Tidy, Aligned, Touches, Behind, LiesAt, InkEnds, EndsInInk,
         Broken, Late;
    FlushedExact(g, s, p);
    if sentences != [] {
      var first, more := sentences[0], sentences[1..];
      LaidOut(sentences, s, p);
      var end := Behind(s, p) + |first|;
      if g.buf == "" {
        StartsEmpty(g, s, p);
        FirstOnTrack(s, first);
        OverlapExact(more, Added(g, first), s, end, target, overlap);
      } else {
        CarriedOnTrack(g, s, p, overlap);
        var h := if Overfull(g, first, target) then Carried(g, overlap) else g;
        AllExactConcat(Flushed(g), GroupsFrom(more, Added(h, first), target, overlap), s);
        if Touches(s, p) {
          TouchBreaks(h, s, p, first);
          OffTrack(more, Added(h, first), s, p, target, overlap);
        } else {
          AddedOnTrack(h, s, p, first);
          OverlapExact(more, Added(h, first), s, end, target, overlap);
        }
      }
    }
  }

  /**
    Without an overlap: behind a group of `len` characters, groups break exactly where a sentence follows without a
    space.
   */
  predicate BreaksAtTouches(sentences: seq<string>, s: string, p: nat, len: nat, target: nat) {
    sentences != [] ==>
      var n := |sentences[0]|;
      var breaks := len + n + 1 > target && len > 0;
      && (len > 0 ==> (breaks <==> Touches(s, p)))
      && BreaksAtTouches(sentences[1..], s, Behind(s, p) + n, if breaks || len == 0 then n else len + 1 + n, target)
  }

  lemma FreshStarts(g: Group, s: string, p: nat, first: string)
    requires Tidy(s) && OnTrack(g, s, p) && g.buf != "" && LiesAt(first, s, p)
    ensures Added(Carried(g, 0), first) == Group(first, p, p + |first|)
    ensures Touches(s, p) ==> OnTrack(Added(Carried(g, 0), first), s, Behind(s, p) + |first|)
    ensures !Touches(s, p) ==> Late(Added(Carried(g, 0), first), s)
  {
    assert Carried(g, 0).buf == "";
    AddedAfterInk(Carried(g, 0), first);
  }

  /** Without an overlap the groups are exact if and only if they break exactly where sentences touch. */
  lemma {:induction false} NoOverlapExact(sentences: seq<string>, g: Group, s: string, p: nat, target: nat)
    requires Tidy(s) && Aligned(sentences, s, p) && OnTrack(g, s, p)
    ensures AllExact(GroupsFrom(sentences, g, target, 0), s) <==> BreaksAtTouches(sentences, s, p, |g.buf|, target)
    decreases |sentences|
  {
    hide AllExact, OnTrack, Added, Carried, Flushed, Tidy, Aligned, Touches, Behind, LiesAt, InkEnds, EndsInInk,
         Broken, Late;
    FlushedExact(g, s, p);
    if sentences != [] {
      var first, more := sentences[0], sentences[1..];
      LaidOut(sentences, s, p);
      var end := Behind(s, p) + |first|;
      AddedLength(g, first, s, p);
      if g.buf == "" {
        StartsEmpty(g, s, p);
        FirstOnTrack(s, first);
        NoOverlapExact(more, Added(g, first), s, end, target);
      } else if Overfull(g, first, target) {
        var h := Added(Carried(g, 0), first);
        FreshStarts(g, s, p, first);
        AllExactConcat(Flushed(g), GroupsFrom(more, h, target, 0), s);
        if Touches(s, p) {
          NoOverlapExact(more, h, s, end, target);
        } else {
          OffTrack(more, h, s, p, target, 0);
        }
      } else if Touches(s, p) {
        TouchBreaks(g, s, p, first);
        OffTrack(more, Added(g, first), s, p, target, 0);
      } else {
        AddedOnTrack(g, s, p, first);
        NoOverlapExact(more, Added(g, first), s, end, target);
      }
    }
  }

  lemma AddedLength(g: Group, first: string, s: string, p: nat)
    requires OnTrack(g, s, p)
    ensures |Added(g, first).buf| == if g.buf == "" then |first| else |g.buf| + 1 + |first|
  {
    AddedAfterInk(g, first);
  }

  /** Where no sentences touch, breaking at touches means not breaking at all. */
  lemma {:induction false} NoTouchNoBreak(sentences: seq<string>, g: Group, s: string, p: nat, target: nat)
    requires Aligned(sentences, s, p) && !SomeTouch(sentences, s, p) && (g.buf != "" ==> EndsInInk(g.buf))
    ensures BreaksAtTouches(sentences, s, p, |g.buf|, target) <==> |GroupsFrom(sentences, g, target, 0)| <= 1
    decreases |sentences|
  {
    hide Added, Carried, Flushed, Aligned, Touches, Behind, LiesAt, InkEnds, EndsInInk;
    AtMostOne(g);
    if sentences != [] {
      var first, more := sentences[0], sentences[1..];
      LaidOut(sentences, s, p);
      var end := Behind(s, p) + |first|;
      AddedEnds(g, first);
      if Overfull(g, first, target) {
        OneAtLeast(g);
        AddedEnds(Group("", g.start + |g.buf|, g.cursor), first);
        CarriedNothing(g);
        SomeGroup(more, Added(Carried(g, 0), first), target);
      } else {
        NoTouchNoBreak(more, Added(g, first), s, end, target);
      }
    }
  }

  lemma CarriedNothing(g: Group)
    ensures Carried(g, 0) == Group("", g.start + |g.buf|, g.cursor)
  {
  }

  lemma AddedEnds(g: Group, first: string)
    requires EndsInInk(first) && (g.buf != "" ==> EndsInInk(g.buf))
    ensures Added(g, first).buf != "" && EndsInInk(Added(g, first).buf)
    ensures |Added(g, first).buf| == if g.buf == "" then |first| else |g.buf| + 1 + |first|
  {
    AddedAfterInk(g, first);
    EndsLike(g.buf, first);
  }

  lemma AtMostOne(g: Group)
    ensures |Flushed(g)| <= 1
  {
  }

  lemma OneAtLeast(g: Group)
    requires EndsInInk(g.buf)
    ensures |Flushed(g)| == 1
  {
    var lo, hi := TrimSplits(g.buf);
  }

  /** A group that holds ink makes a chunk sooner or later. */
  lemma {:induction false} SomeGroup(sentences: seq<string>, g: Group, target: nat)
    requires EndsInInk(g.buf) && InkEnds(sentences)
    ensures |GroupsFrom(sentences, g, target, 0)| > 0
    decreases |sentences|
  {
    hide Added, Carried, Flushed, EndsInInk;
    OneAtLeast(g);
    if sentences != [] && !Overfull(g, sentences[0], target) {
      assert sentences[0] in sentences && forall x | x in sentences[1..] :: x in sentences;
      NotEmpty(g.buf);
      AddedEnds(g, sentences[0]);
      SomeGroup(sentences[1..], Added(g, sentences[0]), target);
    }
  }

  lemma NotEmpty(s: string)
    requires EndsInInk(s)
    ensures s != ""
  {
  }

  // ---- Results ------------------------------------------------------------------------------

  /**
    The offsets of the groups of a normalised paragraph are exact, with an overlap, if and only if every mark is
    followed by white space; without one, if and only if groups break exactly where a sentence follows a mark
    without a space, which for closed marks means that there is at most one group.
   */
  lemma GroupOffsetsExact(para: string, target: nat, overlap: nat)
    requires para != "" && Tidy(para)
    ensures
      var sentences := Sentences(para);
      var groups := Groups(sentences, target, overlap);
      && (overlap > 0 ==> (AllExact(groups, para) <==> MarksClosed(para)))
      && (overlap == 0 ==> (AllExact(groups, para) <==> BreaksAtTouches(sentences, para, 0, 0, target)))
      && (MarksClosed(para) ==> (AllExact(groups, para) <==> overlap > 0 || |groups| <= 1))
  {
    SentencesAreAligned(para, 0, 0);
    ClosedMeansSpaced(para);
    var g := Group("", 0, 0);
    assert OnTrack(g, para, 0);
    hide AllExact, SomeTouch, BreaksAtTouches, Aligned, GroupsFrom, Tidy, MarksClosed;
    if overlap > 0 {
      OverlapExact(Sentences(para), g, para, 0, target, overlap);
    } else {
      NoOverlapExact(Sentences(para), g, para, 0, target);
      if MarksClosed(para) {
        NoTouchNoBreak(Sentences(para), g, para, 0, target);
      }
    }
  }

  /** The chunk was cut by the window from a group that was too long. */
  ghost predicate FromWindow(c: Chunk, para: string, offset: nat, target: nat, overlap: nat)
    requires target > 0
  {
    exists g | g in Groups(Sentences(para), target, overlap) ::
      && |g.content| > Limit(target, overlap)
      && exists w | w in Windows(g.content, target, overlap, g.start) :: c == Placed(w, offset, |para|)
  }

  lemma {:induction false} ResizedSource(groups: seq<Chunk>, target: nat, overlap: nat, c: Chunk)
    requires target > 0 && c in Resized(groups, target, overlap)
    ensures (c in groups && |c.content| <= Limit(target, overlap)) ||
            exists g | g in groups ::
              |g.content| > Limit(target, overlap) && c in Windows(g.content, target, overlap, g.start)
  {
    hide Windows;
    if c in Resized(groups[1..], target, overlap) {
      ResizedSource(groups[1..], target, overlap, c);
    }
  }

  lemma {:induction false} PlacedSource(chunks: seq<Chunk>, offset: nat, len: nat, c: Chunk) returns (w: Chunk)
    requires c in PlacedAll(chunks, offset, len)
    ensures w in chunks && c == Placed(w, offset, len)
  {
    if c == Placed(chunks[0], offset, len) {
      w := chunks[0];
    } else {
      w := PlacedSource(chunks[1..], offset, len, c);
    }
  }

  lemma SliceOfSlice(s: string, at: nat, len: nat, lo: nat, hi: nat)
    requires lo <= hi <= len && at + len <= |s|
    ensures s[at..at + len][lo..hi] == s[lo + at..hi + at]
  {
    var t, u := s[at..at + len], s[lo + at..hi + at];
    assert forall i | 0 <= i < hi - lo :: t[lo..hi][i] == u[i];
  }

  /** An exact chunk of a paragraph is, unclamped, an exact chunk of the text. */
  lemma PlacedExact(c: Chunk, para: string, text: string, offset: nat)
    requires Exact(c, para) && OccursAt(text, para, offset)
    ensures Placed(c, offset, |para|) == Chunk(c.content, c.start + offset, c.end + offset)
    ensures Exact(Placed(c, offset, |para|), text)
  {
    hide Trim;
    SliceOfSlice(text, offset, |para|, c.start, c.end);
  }

  lemma ParagraphOffsets(para: string, text: string, offset: nat, target: nat, overlap: nat, c: Chunk)
    requires target > 0 && overlap > 0 && Tidy(para) && MarksClosed(para) && OccursAt(text, para, offset)
    requires c in ParagraphChunks(para, offset, target, overlap)
    ensures Exact(c, text) || FromWindow(c, para, offset, target, overlap)
  {
    if |para| > target {
      var groups := Groups(Sentences(para), target, overlap);
      GroupOffsetsExact(para, target, overlap);
      hide Groups, Sentences, Exact, Resized, PlacedAll;
      var w := PlacedSource(Resized(groups, target, overlap), offset, |para|, c);
      ResizedSource(groups, target, overlap, w);
      if w in groups {
        PlacedExact(w, para, text, offset);
      }
    }
  }

  lemma {:induction false} ChunksOfSource(paras: seq<string>, n: nat, target: nat, overlap: nat,
                                          c: Chunk) returns (i: nat)
    requires target > 0 && n <= |paras| && c in ChunksOf(paras, n, target, overlap)
    ensures i < n && c in ParagraphChunks(paras[i], Offset(paras, i), target, overlap)
  {
    hide ParagraphChunks, Offset;
    if c in ParagraphChunks(paras[n - 1], Offset(paras, n - 1), target, overlap) {
      i := n - 1;
    } else {
      i := ChunksOfSource(paras, n - 1, target, overlap, c);
    }
  }

  /**
    With an overlap, and every mark followed by white space, each chunk is the trimmed text between its offsets,
    unless the window cut it from a group that was too long.
   */
  lemma OffsetsAreExact(input: string, target: nat, overlap: nat)
    requires target > 0 && overlap > 0
    requires forall p | p in Paragraphs(Normalized(input)) :: MarksClosed(p)
    ensures
      var paras := Paragraphs(Normalized(input));
      forall c | c in Chunks(input, target, overlap) ::
        Exact(c, Normalized(input)) ||
        exists i | 0 <= i < |paras| :: FromWindow(c, paras[i], Offset(paras, i), target, overlap)
  {
    hide Exact, FromWindow, ParagraphChunks, Tidy, MarksClosed;
    var text := Normalized(input);
    var paras := Paragraphs(text);
    ParagraphsAreTidy(input);
    ParagraphsJoin(text);
    forall c | c in Chunks(input, target, overlap)
      ensures Exact(c, text) ||
              exists i | 0 <= i < |paras| :: FromWindow(c, paras[i], Offset(paras, i), target, overlap)
    {
      var i := ChunksOfSource(paras, |paras|, target, overlap, c);
      OffsetIsExact(paras, i);
      assert paras[i] in paras;
      ParagraphOffsets(paras[i], text, Offset(paras, i), target, overlap, c);
    }
  }
  lemma OpenMarkSentences(para: string, a: string, b: string)
    requires para == "ab.cd" && a == "ab." && b == "cd"
    ensures Sentences(para) == [a, b] && Trimmed(a) && Trimmed(b)
  {
    assert EndsAt(para, 2) && !EndsAt(para, 0) && !EndsAt(para, 1) && !EndsAt(para, 3) && !EndsAt(para, 4);
    assert para[0..3] == a && para[3..5] == b && Trimmed(a) && Trimmed(b);
    hide *;
    TrimmedSentence(a);
    TrimmedSentence(b);
    TwoSentences(para, a, b);
  }

  lemma TrimmedSentence(s: string)
    requires Trimmed(s) && s != ""
    ensures Sentence(s) == [s]
  {
    TrimmedIsFixed(s);
  }

  lemma TwoSentences(para: string, a: string, b: string)
    requires |para| == 5 && EndsAt(para, 2) && forall i | 0 <= i < 5 && i != 2 :: !EndsAt(para, i)
    requires Sentence(para[0..3]) == [a] && Sentence(para[3..5]) == [b]
    ensures Sentences(para) == [a, b]
  {
    hide EndsAt, Sentence;
    SentencesStep(para, 0, 0, []);
    SentencesStep(para, 0, 1, []);
    SentencesStep(para, 0, 2, []);
    SentencesStep(para, 3, 3, []);
    SentencesStep(para, 3, 4, []);
    assert para[3..] == para[3..5];
    assert SentencesFrom(para, 3, 5) == [b];
    assert SentencesFrom(para, 0, 2) == [a] + [b];
  }

  /**
    With a mark inside a word, a space appears in the group that the paragraph does not have: the group's end lies
    behind the paragraph's, and its content is not the text between its offsets.
   */
  lemma OpenMarkDrifts()
    ensures
      var para := "ab.cd";
      var groups := Groups(Sentences(para), 4, 1);
      Tidy(para) && !MarksClosed(para) && groups == [Chunk("ab.", 0, 3), Chunk(". cd", 2, 6)] && groups[1].end > |para|
  {
    var para, a, b := "ab.cd", "ab.", "cd";
    OpenMarkSentences(para, a, b);
    assert IsMark(para[2]);
    OpenMarkGroups(a, b, ". cd");
  }

  lemma OpenMarkSteps(a: string, b: string, c: string)
    requires a == "ab." && b == "cd" && c == ". cd"
    ensures !Overfull(Group("", 0, 0), a, 4) && Overfull(Group(a, 0, 3), b, 4)
    ensures Added(Group("", 0, 0), a) == Group(a, 0, 3) && Carried(Group(a, 0, 3), 1) == Group(".", 2, 3)
    ensures Added(Group(".", 2, 3), b) == Group(c, 2, 6)
    ensures Flushed(Group(a, 0, 3)) == [Chunk(a, 0, 3)] && Flushed(Group(c, 2, 6)) == [Chunk(c, 2, 6)]
  {
    hide Trim;
    TrimmedIsFixed(a);
    TrimmedIsFixed(c);
    assert "" + a == a && "." + " " + b == c && a[2..] == ".";
  }

  lemma OpenMarkGroups(a: string, b: string, c: string)
    requires a == "ab." && b == "cd" && c == ". cd"
    ensures Groups([a, b], 4, 1) == [Chunk(a, 0, 3), Chunk(c, 2, 6)]
  {
    hide Flushed, Made, GroupsFrom, Added, Carried, Overfull;
    var two := [a, b];
    OpenMarkSteps(a, b, c);
    GroupsStep(two, 0, Group("", 0, 0), 4, 1);
    GroupsStep(two, 1, Group(a, 0, 3), 4, 1);
    NoMoreSentences(Group(c, 2, 6), 4, 1);
    assert two[0..] == two && two[2..] == [];
  }

  lemma NoMoreSentences(g: Group, target: nat, overlap: nat)
    ensures GroupsFrom([], g, target, overlap) == Flushed(g)
  {
  }
}
