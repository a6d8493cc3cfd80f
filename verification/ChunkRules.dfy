/**
  The rules of chunking, told without the functions that follow them: where sentences end, how groups are filled and
  what they carry over, and where windows lie.
*/
module ChunkRules {
  import opened Text
  import opened Chunker

  // ---- Where sentences end ------------------------------------------------------------------

  /** Nothing inside the sentence ends one: no mark, and no "da" or "kka" before white space. */
  predicate Unbroken(sentence: string) {
    forall j | 0 <= j < |sentence| - 1 ::
      && sentence[j] !in ".!?"
      && (sentence[j] == '\U{B2E4}' || sentence[j] == '\U{AE4C}' ==> !IsSpace(sentence[j + 1]))
  }

  predicate Closed(sentence: string) {
    sentence != "" && sentence[|sentence| - 1] in ".!?\U{B2E4}\U{AE4C}"
  }

  /** No place in the text ends a sentence. */
  predicate NoEndIn(s: string, from: nat, to: nat)
    requires to <= |s|
  {
    forall j | from <= j < to :: !EndsAt(s, j)
  }

  lemma NoEndInside(s: string, p: nat)
    requires p + 1 < |s| && !EndsAt(s, p)
    ensures s[p] !in ".!?" && (s[p] == '\U{B2E4}' || s[p] == '\U{AE4C}' ==> !IsSpace(s[p + 1]))
  {
  }

  lemma EndIsInk(s: string, p: nat)
    requires p < |s| && EndsAt(s, p)
    ensures !IsSpace(s[p]) && s[p] in ".!?\U{B2E4}\U{AE4C}"
  {
  }

  lemma SliceOfSlice(s: string, start: nat, end: nat, lo: nat, hi: nat)
    requires start <= end <= |s| && lo <= hi <= end - start
    ensures forall j | 0 <= j < hi - lo :: s[start..end][lo..hi][j] == s[start + lo + j]
  {
  }

  lemma PieceIsUnbroken(s: string, start: nat, end: nat)
    requires start < end <= |s| && NoEndIn(s, start, end - 1)
    ensures Unbroken(Trim(s[start..end])) && Trimmed(Trim(s[start..end]))
    ensures EndsAt(s, end - 1) ==> Closed(Trim(s[start..end]))
  {
    hide Trim, EndsAt, IsSpace;
    var buf := s[start..end];
    var lo, hi := TrimSplits(buf);
    var t := Trim(buf);
    SliceOfSlice(s, start, end, lo, hi);
    forall j | 0 <= j < |t| - 1
      ensures t[j] !in ".!?" && (t[j] == '\U{B2E4}' || t[j] == '\U{AE4C}' ==> !IsSpace(t[j + 1]))
    {
      NoEndInside(s, start + lo + j);
    }
    if EndsAt(s, end - 1) {
      EndIsInk(s, end - 1);
      InkAtEnd(buf, lo, hi);
    }
  }

  lemma InkAtEnd(buf: string, lo: nat, hi: nat)
    requires lo <= hi <= |buf| && buf != "" && !IsSpace(buf[|buf| - 1]) && AllSpace(buf[..lo]) && AllSpace(buf[hi..])
    ensures lo < hi == |buf| && buf[lo..hi][hi - lo - 1] == buf[|buf| - 1]
  {
    LastOfSpace(buf, hi);
    LastOfSpace(buf, 0);
    assert buf[..|buf|] == buf == buf[0..];
  }

  lemma LastOfSpace(buf: string, k: nat)
    requires k <= |buf|
    ensures k < |buf| && AllSpace(buf[k..]) ==> IsSpace(buf[|buf| - 1])
  {
    if k < |buf| {
      assert buf[k..][|buf| - 1 - k] == buf[|buf| - 1];
    }
  }

  /** Every sentence is as short as it can be, and every one but the last has an end. */
  ghost predicate Ended(sentences: seq<string>) {
    && (forall t | t in sentences :: t != "" && Trimmed(t) && Unbroken(t))
    && (forall k | 0 <= k < |sentences| - 1 :: Closed(sentences[k]))
  }

  lemma {:induction false} SentencesFromEnd(s: string, start: nat, i: nat)
    requires start <= i <= |s| && NoEndIn(s, start, i)
    ensures Ended(SentencesFrom(s, start, i))
    decreases |s| - i
  {
    hide Trim, Unbroken, Closed, EndsAt;
    if i == |s| {
      assert s[start..] == s[start..|s|];
      if start < |s| {
        PieceIsUnbroken(s, start, |s|);
      } else {
        assert Trim("") == "" by { EmptyTrim(); }
      }
    } else if EndsAt(s, i) {
      PieceIsUnbroken(s, start, i + 1);
      SentencesFromEnd(s, i + 1, i + 1);
      EndedCons(Sentence(s[start..i + 1]), SentencesFrom(s, i + 1, i + 1));
    } else {
      SentencesFromEnd(s, start, i + 1);
    }
  }

  lemma EmptyTrim()
    ensures Trim("") == ""
  {
  }

  lemma EndedCons(first: seq<string>, more: seq<string>)
    requires |first| <= 1 && Ended(first) && Ended(more) && forall t | t in first :: Closed(t)
    ensures Ended(first + more)
  {
    hide Unbroken, Closed;
    var all := first + more;
    forall k | 0 <= k < |all| - 1 ensures Closed(all[k]) {
      if k >= |first| { assert all[k] == more[k - |first|]; } else { assert all[k] in first; }
    }
  }

  /**
    No sentence holds, before its last character, a mark, or one of the two endings before white space; every
    sentence but the last ends with a mark or one of these.
   */
  lemma SentencesEnd(s: string)
    ensures Ended(Sentences(s))
  {
    SentencesFromEnd(s, 0, 0);
  }

  // ---- How groups are filled ----------------------------------------------------------------

  /** Sentences one after the other, behind what was carried over. */
  function Filled(tail: string, run: seq<string>): string {
    Join(Parts(tail, run), " ")
  }

  function Parts(tail: string, run: seq<string>): seq<string> {
    (if tail == "" then [] else [tail]) + run
  }

  /** The last characters of a text. */
  function TailOf(text: string, length: nat): string {
    if length < |text| then text[|text| - length..] else text
  }

  /** Each sentence behind the first still fitted when it came. */
  predicate Fitted(tail: string, run: seq<string>, target: nat) {
    forall m | 0 < m < |run| :: |Filled(tail, run[..m])| + |run[m]| + 1 <= target
  }

  function Together(runs: seq<seq<string>>): seq<string> {
    if runs == [] then [] else runs[0] + Together(runs[1..])
  }

  /**
    The groups made of runs of sentences: each is what was carried over and its run, joined by spaces; a run goes on
    as long as its sentences fit, and what is carried over are the last `overlap` characters of the group before.
   */
  predicate Greedy(runs: seq<seq<string>>, tail: string, groups: seq<Chunk>, target: nat, overlap: nat)
    decreases |runs|
  {
    && runs != [] && |groups| == |runs| && runs[0] != []
    && var text := Filled(tail, runs[0]);
    && Fitted(tail, runs[0], target)
    && groups[0].content == Trim(text) && groups[0].end == groups[0].start + |text|
    && (|runs| > 1 ==>
          && runs[1] != [] && |text| + |runs[1][0]| + 1 > target
          && (overlap > 0 ==> groups[1].start == groups[0].end - |TailOf(text, overlap)|)
          && Greedy(runs[1..], TailOf(text, overlap), groups[1..], target, overlap))
  }

  predicate WellMade(sentences: seq<string>) {
    forall t | t in sentences :: t != "" && Trimmed(t)
  }

  /** Text that ends in ink. */
  predicate EndsInInk(s: string) {
    s != "" ==> !IsSpace(s[|s| - 1])
  }

  lemma {:induction false} JoinLast(parts: seq<string>, last: string)
    ensures Join(parts + [last], " ") == if parts == [] then last else Join(parts, " ") + " " + last
  {
    if parts == [] {
      assert parts + [last] == [last];
    } else {
      JoinLast(parts[1..], last);
      assert (parts + [last])[1..] == parts[1..] + [last];
      if |parts| > 1 {
        var more := Join(parts[1..], " ");
        assert parts[0] + " " + (more + " " + last) == (parts[0] + " " + more) + " " + last;
      }
    }
  }

  lemma {:induction false} JoinEndsInInk(parts: seq<string>)
    requires parts != [] && forall t | t in parts :: t != "" && EndsInInk(t)
    ensures Join(parts, " ") != "" && EndsInInk(Join(parts, " "))
  {
    var n := |parts| - 1;
    assert parts == parts[..n] + [parts[n]] && parts[n] in parts;
    JoinLast(parts[..n], parts[n]);
  }

  lemma FilledEnds(tail: string, run: seq<string>)
    requires EndsInInk(tail) && WellMade(run)
    ensures EndsInInk(Filled(tail, run)) && (Filled(tail, run) == "" <==> Parts(tail, run) == [])
  {
    hide Join;
    var parts := Parts(tail, run);
    if parts == [] {
      NothingJoined();
    } else {
      forall t | t in parts ensures t != "" && EndsInInk(t) {
        if t !in run { assert t == tail; }
      }
      JoinEndsInInk(parts);
    }
  }

  lemma NothingJoined()
    ensures Join([], " ") == ""
  {
  }

  /** A sentence appended is one more part of the join. */
  lemma FilledMore(tail: string, run: seq<string>, s: string)
    requires EndsInInk(tail) && WellMade(run) && s != "" && Trimmed(s)
    ensures
      var text := Filled(tail, run);
      Filled(tail, run + [s]) == (if text == "" then s else text + " " + s) && EndsInInk(text)
  {
    hide Join;
    assert Parts(tail, run + [s]) == Parts(tail, run) + [s];
    JoinLast(Parts(tail, run), s);
    FilledEnds(tail, run);
  }

  lemma AddedFills(g: Group, tail: string, run: seq<string>, s: string)
    requires g.buf == Filled(tail, run)
    requires EndsInInk(tail) && WellMade(run) && s != "" && Trimmed(s)
    ensures Added(g, s).buf == Filled(tail, run + [s]) && (g.buf != "" ==> Added(g, s).start == g.start)
  {
    hide Filled;
    FilledMore(tail, run, s);
  }

  lemma CarriedTail(g: Group, overlap: nat)
    ensures Carried(g, overlap).buf == TailOf(g.buf, overlap)
    ensures EndsInInk(g.buf) ==> EndsInInk(TailOf(g.buf, overlap))
    ensures Carried(g, overlap).start == g.start + |g.buf| - |TailOf(g.buf, overlap)|
    ensures g.buf != "" ==> (TailOf(g.buf, overlap) == "" <==> overlap == 0)
  {
  }

  lemma FlushedText(g: Group)
    requires g.buf != "" && EndsInInk(g.buf)
    ensures Flushed(g) == [Chunk(Trim(g.buf), g.start, g.start + |g.buf|)]
  {
    hide Trim;
    var lo, hi := TrimSplits(g.buf);
    LastOfSpace(g.buf, 0);
    assert g.buf[0..] == g.buf;
  }

  lemma FittedMore(tail: string, run: seq<string>, s: string, target: nat)
    requires Fitted(tail, run, target) && (run != [] ==> |Filled(tail, run)| + |s| + 1 <= target)
    ensures Fitted(tail, run + [s], target)
  {
    hide Filled;
    var more := run + [s];
    forall m | 0 < m < |more|
      ensures |Filled(tail, more[..m])| + |more[m]| + 1 <= target
    {
      assert more[..m] == run[..m];
      if m == |run| { assert run[..m] == run; }
    }
  }

  lemma OneRun(run: seq<string>)
    ensures Together([run]) == run
  {
    assert [run][1..] == [] && run + [] == run;
  }

  lemma RunCons(first: seq<string>, more: seq<seq<string>>)
    ensures Together([first] + more) == first + Together(more)
  {
    assert ([first] + more)[1..] == more;
  }

  lemma GreedyCons(run: seq<string>, runs: seq<seq<string>>, tail: string, first: Chunk, groups: seq<Chunk>,
                   target: nat, overlap: nat)
    requires run != [] && Fitted(tail, run, target) && runs != [] && runs[0] != [] && groups != []
    requires
      var text := Filled(tail, run);
      && first.content == Trim(text) && first.end == first.start + |text|
      && |text| + |runs[0][0]| + 1 > target && Greedy(runs, TailOf(text, overlap), groups, target, overlap)
      && (overlap > 0 ==> groups[0].start == first.end - |TailOf(text, overlap)|)
    ensures Greedy([run] + runs, tail, [first] + groups, target, overlap)
  {
    hide Filled, Fitted, Trim;
    assert ([run] + runs)[1..] == runs && ([first] + groups)[1..] == groups;
  }

  /** Where the sentences to come go, the group under way holding `run` behind `tail`. */
  lemma {:induction false} GroupsFromGreedy(rest: seq<string>, g: Group, tail: string, run: seq<string>, target: nat,
                                            overlap: nat) returns (runs: seq<seq<string>>)
    requires g.buf == Filled(tail, run) && run != [] && EndsInInk(tail) && WellMade(run) && WellMade(rest)
    requires Fitted(tail, run, target)
    ensures Together(runs) == run + rest
    ensures runs != [] && run <= runs[0]
    ensures Greedy(runs, tail, GroupsFrom(rest, g, target, overlap), target, overlap)
    ensures GroupsFrom(rest, g, target, overlap)[0].start == g.start
    decreases |rest|
  {
    hide Filled, Trim, Fitted, Added, Carried, Trimmed, TailOf, EndsInInk, Together, Flushed;
    BufferEndsInInk(g.buf, tail, run);
    FlushedText(g);
    if rest == [] {
      runs := [run];
      OneRun(run);
      assert run + rest == run;
    } else {
      var s, more := rest[0], rest[1..];
      assert s in rest && forall t | t in more :: t in rest;
      if Overfull(g, s, target) {
        var h, tail' := Carried(g, overlap), TailOf(g.buf, overlap);
        CarriedTail(g, overlap);
        NoRun(tail');
        FittedMore(tail', [], s, target) by { NothingFitted(tail', target); }
        AddedFills(h, tail', [], s);
        assert [] + [s] == [s];
        var later := GroupsFromGreedy(more, Added(h, s), tail', [s], target, overlap);
        runs := [run] + later;
        RunCons(run, later);
        assert run + ([s] + more) == run + rest;
        GreedyCons(run, later, tail, Flushed(g)[0], GroupsFrom(more, Added(h, s), target, overlap), target, overlap);
      } else {
        AddedFills(g, tail, run, s);
        FittedMore(tail, run, s, target);
        runs := GroupsFromGreedy(more, Added(g, s), tail, run + [s], target, overlap);
        assert (run + [s]) + more == run + rest;
      }
    }
  }

  lemma BufferEndsInInk(buf: string, tail: string, run: seq<string>)
    requires buf == Filled(tail, run) && run != [] && EndsInInk(tail) && WellMade(run)
    ensures buf != "" && EndsInInk(buf)
  {
    hide Filled;
    FilledEnds(tail, run);
  }

  lemma NoRun(tail: string)
    ensures Filled(tail, []) == tail && WellMade([])
  {
  }

  lemma NothingFitted(tail: string, target: nat)
    ensures Fitted(tail, [], target)
  {
  }

  lemma FirstFills(g: Group, s: string, target: nat)
    requires g.buf == "" && s != "" && Trimmed(s)
    ensures Added(g, s).buf == Filled("", [s]) && Fitted("", [s], target) && WellMade([s]) && EndsInInk("")
  {
    hide Filled, Fitted, Added;
    NoRun("");
    NothingFitted("", target);
    FittedMore("", [], s, target);
    AddedFills(g, "", [], s);
    assert [] + [s] == [s];
  }

  lemma FirstGroup(sentences: seq<string>, target: nat, overlap: nat)
    requires sentences != []
    ensures
      var g := Added(Group("", 0, 0), sentences[0]);
      Groups(sentences, target, overlap) == GroupsFrom(sentences[1..], g, target, overlap) && g.start == 0
  {
  }

  /** The groups of a list of sentences are the greedy ones, each carrying over exactly the overlap. */
  lemma GroupsAreGreedy(sentences: seq<string>, target: nat, overlap: nat) returns (runs: seq<seq<string>>)
    requires sentences != [] && WellMade(sentences)
    ensures Together(runs) == sentences
    ensures Greedy(runs, "", Groups(sentences, target, overlap), target, overlap)
    ensures Groups(sentences, target, overlap)[0].start == 0
  {
    var g, s := Group("", 0, 0), sentences[0];
    FirstGroup(sentences, target, overlap);
    hide Filled, Trim, Trimmed, Groups, GroupsFrom, Greedy, Fitted, Added, Together;
    assert s in sentences && forall t | t in sentences[1..] :: t in sentences;
    FirstFills(g, s, target);
    runs := GroupsFromGreedy(sentences[1..], Added(g, s), "", [s], target, overlap);
    assert [s] + sentences[1..] == sentences;
  }

  // ---- Where windows lie --------------------------------------------------------------------

  function Lo(i: nat, target: nat, overlap: nat): nat {
    i * if overlap < target then target - overlap else 1
  }

  function Hi(i: nat, target: nat, overlap: nat, total: nat): nat {
    if Lo(i, target, overlap) + target < total then Lo(i, target, overlap) + target else total
  }

  /** There is a window `i`: the one before it has not reached the end. */
  predicate Opens(i: nat, target: nat, overlap: nat, total: nat) {
    if i == 0 then total > 0 else Hi(i - 1, target, overlap, total) < total
  }

  /** The text in window `i`. */
  function Seen(text: string, i: nat, target: nat, overlap: nat): string
    requires target > 0 && Opens(i, target, overlap, |text|)
  {
    OpensInside(i, target, overlap, |text|);
    text[Lo(i, target, overlap)..Hi(i, target, overlap, |text|)]
  }

  lemma OpensInside(i: nat, target: nat, overlap: nat, total: nat)
    requires target > 0 && Opens(i, target, overlap, total)
    ensures Lo(i, target, overlap) < Hi(i, target, overlap, total) <= total
    ensures i > 0 ==> Lo(i, target, overlap) == Lo(i - 1, target, overlap) + Stride(target, overlap)
  {
  }

  /** The chunk is what is seen in window `k`, with the window's offsets. */
  predicate ShownIn(c: Chunk, text: string, k: nat, target: nat, overlap: nat, base: nat)
    requires target > 0
  {
    && Opens(k, target, overlap, |text|) && c.content == Trim(Seen(text, k, target, overlap))
    && c.start == base + Lo(k, target, overlap) && c.end == base + Hi(k, target, overlap, |text|)
  }

  /** There is a window `k`, and it is not blank. */
  predicate Inked(text: string, k: nat, target: nat, overlap: nat)
    requires target > 0
  {
    Opens(k, target, overlap, |text|) && !AllSpace(Seen(text, k, target, overlap))
  }

  /** The chunks are what is not blank in the windows from `i` on: those in the windows `at`, in order. */
  ghost predicate SeenFrom(text: string, i: nat, target: nat, overlap: nat, base: nat, at: seq<nat>, chunks: seq<Chunk>)
    requires target > 0
  {
    && |at| == |chunks|
    && (forall j | 0 <= j < |at| :: i <= at[j] && ShownIn(chunks[j], text, at[j], target, overlap, base))
    && (forall j, k | 0 <= j < k < |at| :: at[j] < at[k])
    && (forall k: nat | i <= k && Inked(text, k, target, overlap) :: k in at)
  }

  lemma LoGrows(i: nat, k: nat, target: nat, overlap: nat)
    requires i <= k
    ensures Lo(i, target, overlap) <= Lo(k, target, overlap)
    decreases k - i
  {
    if i < k { LoGrows(i, k - 1, target, overlap); }
  }

  lemma SeenCons(text: string, i: nat, target: nat, overlap: nat, base: nat, c: Chunk, at: seq<nat>, more: seq<Chunk>)
    requires target > 0 && SeenFrom(text, i + 1, target, overlap, base, at, more)
    requires ShownIn(c, text, i, target, overlap, base)
    ensures SeenFrom(text, i, target, overlap, base, [i] + at, [c] + more)
  {
    hide ShownIn, Inked;
    var all := [i] + at;
    assert forall j | 0 < j < |all| :: all[j] == at[j - 1];
    assert all[0] == i && forall k | k in at :: k in all;
  }

  lemma SeenSkip(text: string, i: nat, target: nat, overlap: nat, base: nat, at: seq<nat>, more: seq<Chunk>)
    requires target > 0 && SeenFrom(text, i + 1, target, overlap, base, at, more) && !Inked(text, i, target, overlap)
    ensures SeenFrom(text, i, target, overlap, base, at, more)
  {
    hide ShownIn, Inked;
  }

  lemma SeenNow(text: string, i: nat, target: nat, overlap: nat, base: nat, at: seq<nat>, more: seq<Chunk>)
    requires target > 0 && Opens(i, target, overlap, |text|) && SeenFrom(text, i + 1, target, overlap, base, at, more)
    ensures
      var lo, hi, seen := Lo(i, target, overlap), Hi(i, target, overlap, |text|), Seen(text, i, target, overlap);
      SeenFrom(text, i, target, overlap, base, (if Trim(seen) == "" then [] else [i]) + at,
               Made(seen, base + lo, base + hi) + more)
  {
    hide Trim, Lo, Hi, Opens, Seen, SeenFrom;
    var seen := Seen(text, i, target, overlap);
    var lo, hi := TrimSplits(seen);
    if Trim(seen) != "" {
      var c := Chunk(Trim(seen), base + Lo(i, target, overlap), base + Hi(i, target, overlap, |text|));
      SeenCons(text, i, target, overlap, base, c, at, more);
    } else {
      SeenSkip(text, i, target, overlap, base, at, more);
      assert [] + at == at && [] + more == more;
    }
  }

  lemma NoMoreWindows(text: string, i: nat, target: nat, overlap: nat, base: nat)
    requires target > 0 && if i == 0 then text == "" else Hi(i - 1, target, overlap, |text|) >= |text|
    ensures SeenFrom(text, i, target, overlap, base, [], [])
  {
    forall k: nat | i <= k
      ensures !Opens(k, target, overlap, |text|)
    {
      if 0 < i { LoGrows(i - 1, k - 1, target, overlap); }
    }
  }

  lemma {:induction false} CutFromSeen(text: string, i: nat, target: nat, overlap: nat, base: nat)
    returns (at: seq<nat>)
    requires target > 0 && Opens(i, target, overlap, |text|)
    ensures SeenFrom(text, i, target, overlap, base, at, CutFrom(text, Lo(i, target, overlap), target, overlap, base))
    decreases |text| - Lo(i, target, overlap)
  {
    hide Trim, Made, CutFrom, SeenFrom;
    OpensInside(i, target, overlap, |text|);
    CutFromStep(text, Lo(i, target, overlap), target, overlap, base);
    var end := Hi(i, target, overlap, |text|);
    var later, more := [], [];
    if end >= |text| {
      NoMoreWindows(text, i + 1, target, overlap, base);
    } else {
      OpensInside(i + 1, target, overlap, |text|);
      later := CutFromSeen(text, i + 1, target, overlap, base);
      more := CutFrom(text, Lo(i + 1, target, overlap), target, overlap, base);
    }
    SeenNow(text, i, target, overlap, base, later, more);
    at := (if Trim(Seen(text, i, target, overlap)) == "" then [] else [i]) + later;
  }

  /**
    The windows over a text: they begin at the multiples of the stride, until one reaches the end; each chunk is the
    trimmed text of its window with the window's offsets, and no window that is not blank is left out.
   */
  lemma WindowsAreSeen(text: string, target: nat, overlap: nat, base: nat) returns (at: seq<nat>)
    requires target > 0
    ensures SeenFrom(text, 0, target, overlap, base, at, Windows(text, target, overlap, base))
  {
    hide SeenFrom, CutFrom;
    if text == "" {
      CutFromEmpty(target, overlap, base);
      NoMoreWindows(text, 0, target, overlap, base);
      at := [];
    } else {
      at := CutFromSeen(text, 0, target, overlap, base);
    }
  }

  // ---- One paragraph ------------------------------------------------------------------------

  /** A paragraph within the target size is one chunk. */
  lemma ShortParagraph(para: string, offset: nat, target: nat, overlap: nat)
    requires 0 < |para| <= target && !AllSpace(para)
    ensures ParagraphChunks(para, offset, target, overlap) == [Chunk(Trim(para), offset, offset + |para|)]
  {
    hide Trim;
    var lo, hi := TrimSplits(para);
  }

  lemma {:induction false} PlacedAt(chunks: seq<Chunk>, offset: nat, len: nat)
    ensures
      var placed := PlacedAll(chunks, offset, len);
      && |placed| == |chunks|
      && forall i | 0 <= i < |chunks| ::
           && placed[i].content == chunks[i].content && placed[i].start == offset + chunks[i].start
           && placed[i].end == offset + if chunks[i].end < len then chunks[i].end else len
  {
    if chunks != [] {
      PlacedAt(chunks[1..], offset, len);
      assert forall i | 0 < i < |chunks| :: chunks[i] == chunks[1..][i - 1];
    }
  }

  /** Groups are resized one by one. */
  lemma {:induction false} ResizedConcat(a: seq<Chunk>, b: seq<Chunk>, target: nat, overlap: nat)
    requires target > 0
    ensures Resized(a + b, target, overlap) == Resized(a, target, overlap) + Resized(b, target, overlap)
  {
    hide Resized;
    if a == [] {
      NoneResized(target, overlap);
      assert a + b == b && [] + Resized(b, target, overlap) == Resized(b, target, overlap);
    } else {
      ResizedConcat(a[1..], b, target, overlap);
      ResizedCons(a[0], a[1..] + b, target, overlap);
      ResizedCons(a[0], a[1..], target, overlap);
      assert a + b == [a[0]] + (a[1..] + b) && a == [a[0]] + a[1..];
    }
  }

  lemma NoneResized(target: nat, overlap: nat)
    requires target > 0
    ensures Resized([], target, overlap) == []
  {
  }

  lemma ResizedCons(g: Chunk, more: seq<Chunk>, target: nat, overlap: nat)
    requires target > 0
    ensures Resized([g] + more, target, overlap) == Resized([g], target, overlap) + Resized(more, target, overlap)
  {
    hide Windows;
    assert ([g] + more)[1..] == more && [g][1..] == [];
    assert Resized([], target, overlap) == [];
  }

  /** A group within the limit stays as it is, a longer one is cut into windows. */
  lemma ResizedOne(g: Chunk, target: nat, overlap: nat) returns (at: seq<nat>)
    requires target > 0
    ensures |g.content| <= target + overlap || (overlap == 0 && |g.content| == target + 1) ==>
              Resized([g], target, overlap) == [g]
    ensures |g.content| > target + overlap && (overlap == 0 ==> |g.content| > target + 1) ==>
              SeenFrom(g.content, 0, target, overlap, g.start, at, Resized([g], target, overlap))
  {
    hide Windows, SeenFrom;
    assert [g][1..] == [];
    assert Windows(g.content, target, overlap, g.start) + [] == Windows(g.content, target, overlap, g.start);
    at := WindowsAreSeen(g.content, target, overlap, g.start);
  }

  /**
    A paragraph beyond the target size: its sentences end by the rules, the groups are the greedy ones, and the chunks
    are the groups, resized one by one and moved to the paragraph.
   */
  lemma LongParagraph(para: string, offset: nat, target: nat, overlap: nat) returns (runs: seq<seq<string>>)
    requires |para| > target > 0 && !AllSpace(para)
    ensures
      var groups := Groups(Sentences(para), target, overlap);
      && Ended(Sentences(para)) && Together(runs) == Sentences(para) && Greedy(runs, "", groups, target, overlap)
      && groups[0].start == 0
      && ParagraphChunks(para, offset, target, overlap) == PlacedAll(Resized(groups, target, overlap), offset, |para|)
  {
    hide Sentences, Groups, Resized, PlacedAll, Greedy, Trim;
    SentencesEnd(para);
    var lo, hi := TrimSplits(para);
    if Sentences(para) == [] { NoSentenceMeansBlank(para); }
    runs := GroupsAreGreedy(Sentences(para), target, overlap);
  }
}
