/**
  How the parser's answer depends on the way a stream is cut into segments: not at all, exactly when no
  "\n\n" comes after a "\r\n\r\n".
*/
module SseSegments {
  import opened Text
  import opened SseCodec

  /** No "\n\n" begins after a "\r\n\r\n"; streams that use only one of the two have this. */
  ghost predicate Ordered(s: string) {
    forall p: nat, q: nat | CrLfAt(s, p) && LfAt(s, q) :: q < p
  }

  /** One `parse` per segment, starting with `buf` in the buffer. */
  function Feed(buf: string, segments: seq<string>): Cutting
    decreases |segments|
  {
    if segments == [] then Cutting([], buf)
    else
      var now := Cut(buf + segments[0]);
      Then(now.frames, Feed(now.rest, segments[1..]))
  }

  /** A cutting with earlier frames in front. */
  function Then(earlier: seq<Frame>, c: Cutting): Cutting {
    Cutting(earlier + c.frames, c.rest)
  }

  lemma ThenThen(a: seq<Frame>, b: seq<Frame>, c: Cutting)
    ensures Then(a, Then(b, c)) == Then(a + b, c)
  {
  }

  /** All results of one `parse` per segment and a final `flush`. */
  function StreamResults(segments: seq<string>): seq<ParseResult> {
    var all := Feed("", segments);
    Results(all.frames) + FlushResults(all.rest)
  }

  lemma {:induction false} FeedAppend(buf: string, segments: seq<string>, last: string)
    ensures
      var f := Feed(buf, segments);
      Feed(buf, segments + [last]) == Then(f.frames, Cut(f.rest + last))
    decreases |segments|
  {
    if segments == [] {
      FeedOne(buf, last);
      assert segments + [last] == [last];
    } else {
      var now := Cut(buf + segments[0]);
      assert (segments + [last])[1..] == segments[1..] + [last];
      FeedAppend(now.rest, segments[1..], last);
      var f := Feed(now.rest, segments[1..]);
      ThenThen(now.frames, f.frames, Cut(f.rest + last));
    }
  }

  lemma FeedOne(buf: string, s: string)
    ensures Feed(buf, [s]) == Cut(buf + s)
  {
    assert [s][1..] == [];
  }

  method ParseStream(segments: seq<string>) returns (results: seq<ParseResult>)
    ensures results == StreamResults(segments)
  {
    var parser := new SseChunkParser();
    results := [];
    var i := 0;
    while i < |segments|
      invariant 0 <= i <= |segments|
      invariant parser.Valid() && fresh(parser)
      invariant parser.buf == Feed("", segments[..i]).rest
      invariant results == Results(Feed("", segments[..i]).frames)
    {
      FeedAppend("", segments[..i], segments[i]);
      ResultsAppend(Feed("", segments[..i]).frames, Cut(parser.buf + segments[i]).frames);
      assert segments[..i + 1] == segments[..i] + [segments[i]];
      var more := parser.Parse(segments[i]);
      results := results + more;
      i := i + 1;
    }
    assert segments[..|segments|] == segments;
    var rest := parser.Flush();
    results := results + rest;
  }

  lemma OrderedSuffix(a: string, b: string)
    requires Ordered(a + b)
    ensures Ordered(b)
  {
    forall p: nat, q: nat | CrLfAt(b, p) && LfAt(b, q)
      ensures q < p
    {
      assert CrLfAt(a + b, |a| + p) && LfAt(a + b, |a| + q);
    }
  }

  /** More input after a separator does not move it. */
  lemma SepIsStable(a: string, b: string)
    requires Ordered(a + b) && NextSep(a).Some?
    ensures NextSep(a + b) == NextSep(a)
  {
    forall i: nat | i < |a|
      ensures LfAt(a, i) ==> LfAt(a + b, i)
      ensures CrLfAt(a, i) ==> CrLfAt(a + b, i)
      ensures i + 2 <= |a| && LfAt(a + b, i) ==> LfAt(a, i)
      ensures i + 4 <= |a| && CrLfAt(a + b, i) ==> CrLfAt(a, i)
    {
    }
  }

  /** Taking the first frame off. */
  lemma CutFirst(s: string, p: nat, n: nat, tail: string)
    requires NextSep(s) == Some((p, n)) && s[p + n..] == tail
    ensures Cut(s) == Then([Frame(s[..p], s[p..p + n])], Cut(tail))
  {
  }

  /** The first frame comes off `a` and off `a + b` alike. */
  lemma Peel(a: string, b: string, p: nat, n: nat)
    requires NextSep(a) == Some((p, n)) && NextSep(a + b) == Some((p, n))
    ensures
      var first := [Frame(a[..p], a[p..p + n])];
      && Cut(a) == Then(first, Cut(a[p + n..]))
      && Cut(a + b) == Then(first, Cut(a[p + n..] + b))
  {
    assert (a + b)[..p] == a[..p] && (a + b)[p..p + n] == a[p..p + n];
    assert (a + b)[p + n..] == a[p + n..] + b;
    CutFirst(a + b, p, n, a[p + n..] + b);
    CutFirst(a, p, n, a[p + n..]);
  }

  lemma OrderedAfter(a: string, b: string, k: nat)
    requires k <= |a| && Ordered(a + b)
    ensures Ordered(a[k..] + b)
  {
    assert a + b == a[..k] + (a[k..] + b);
    OrderedSuffix(a[..k], a[k..] + b);
  }

  /** The key step: cutting `a + b` at once is cutting `a`, then what is left of it with `b`. */
  lemma {:induction false} CutInTwo(a: string, b: string)
    requires Ordered(a + b)
    ensures Cut(a + b) == Then(Cut(a).frames, Cut(Cut(a).rest + b))
    decreases |a|
  {
    if NextSep(a).Some? {
      var (p, n) := NextSep(a).value;
      var a' := a[p + n..];
      SepIsStable(a, b);
      Peel(a, b, p, n);
      OrderedAfter(a, b, p + n);
      CutInTwo(a', b);
      ThenThen([Frame(a[..p], a[p..p + n])], Cut(a').frames, Cut(Cut(a').rest + b));
    }
  }

  lemma RestIsOrdered(a: string, b: string)
    requires Ordered(a + b)
    ensures Ordered(Cut(a).rest + b)
  {
    CutConserves(a);
    assert a + b == Uncut(Cut(a).frames) + (Cut(a).rest + b);
    OrderedSuffix(Uncut(Cut(a).frames), Cut(a).rest + b);
  }

  lemma {:induction false} FeedIsCut(buf: string, segments: seq<string>)
    requires NextSep(buf).None? && Ordered(buf + Concat(segments))
    ensures Feed(buf, segments) == Cut(buf + Concat(segments))
    decreases |segments|
  {
    if segments == [] {
      assert buf + Concat(segments) == buf;
    } else {
      var a, b := buf + segments[0], Concat(segments[1..]);
      assert buf + Concat(segments) == a + b;
      RestIsOrdered(a, b);
      CutConserves(a);
      FeedIsCut(Cut(a).rest, segments[1..]);
      CutInTwo(a, b);
    }
  }

  lemma LfIsStable(a: string, b: string, p: nat)
    requires FindLf(a, 0) == Some(p)
    ensures FindLf(a + b, 0) == Some(p)
  {
    assert LfAt(a + b, p);
    assert forall i: nat | i < p :: LfAt(a + b, i) ==> LfAt(a, i);
  }

  lemma BothShift(a: string, b: string, p: nat, q: nat)
    requires |a| >= 4 && CrLfAt(a, |a| - 4) && LfAt(a, p)
    requires q > |a| - 4 && LfAt(a + b, q)
    ensures
      var a' := a[p + 2..];
      |a'| >= 4 && CrLfAt(a', |a'| - 4) && q - p - 2 > |a'| - 4 && LfAt(a' + b, q - p - 2)
  {
  }

  /** A "\n\n" after the "\r\n\r\n" that ends `a` makes the cut behind `a` visible in the frames. */
  lemma {:induction false} CutDiverges(a: string, b: string, q: nat)
    requires |a| >= 4 && CrLfAt(a, |a| - 4)
    requires q > |a| - 4 && LfAt(a + b, q)
    ensures Cut(a + b).frames != Cut(a).frames + Cut(Cut(a).rest + b).frames
    decreases |a|
  {
    var f := FindLf(a, 0);
    if f.Some? {
      var p := f.value;
      BothShift(a, b, p, q);
      CutDiverges(a[p + 2..], b, q - p - 2);
      DivergeEarlier(a, b, p);
    } else {
      FirstSepIsCrLf(a);
      FirstSepIsLf(a + b, q);
    }
  }

  lemma DivergeEarlier(a: string, b: string, p: nat)
    requires FindLf(a, 0) == Some(p)
    requires
      var a' := a[p + 2..];
      Cut(a' + b).frames != Cut(a').frames + Cut(Cut(a').rest + b).frames
    ensures Cut(a + b).frames != Cut(a).frames + Cut(Cut(a).rest + b).frames
  {
    var a' := a[p + 2..];
    LfIsStable(a, b, p);
    Peel(a, b, p, 2);
    HeadsCancel([Frame(a[..p], a[p..p + 2])], Cut(a' + b).frames, Cut(a').frames, Cut(Cut(a').rest + b).frames);
  }

  lemma HeadsCancel(first: seq<Frame>, x: seq<Frame>, y: seq<Frame>, z: seq<Frame>)
    requires x != y + z
    ensures first + x != (first + y) + z
  {
    assert (first + x)[|first|..] == x;
    assert ((first + y) + z)[|first|..] == y + z;
  }

  lemma FirstSepIsLf(s: string, q: nat)
    requires LfAt(s, q)
    ensures Cut(s).frames != [] && |Cut(s).frames[0].sep| == 2
  {
    var p := FindLf(s, 0).value;
    CutFirst(s, p, 2, s[p + 2..]);
  }

  lemma FirstSepIsCrLf(s: string)
    requires FindLf(s, 0).None? && |s| >= 4 && CrLfAt(s, |s| - 4)
    ensures Cut(s).frames != [] && |Cut(s).frames[0].sep| == 4
  {
    var p := FindCrLf(s, 0).value;
    CutFirst(s, p, 4, s[p + 4..]);
  }

  lemma FeedTwo(a: string, b: string)
    ensures Concat([a, b]) == a + b
    ensures Feed("", [a, b]) == Then(Cut(a).frames, Cut(Cut(a).rest + b))
  {
    assert [a, b][1..] == [b] && [b][1..] == [] && "" + a == a;
    assert Concat([b]) == b;
    FeedOne(Cut(a).rest, b);
  }

  lemma UnorderedDiverges(s: string) returns (a: string, b: string)
    requires !Ordered(s)
    ensures Concat([a, b]) == s && Feed("", [a, b]) != Cut(s)
  {
    var p: nat, q: nat :| CrLfAt(s, p) && LfAt(s, q) && !(q < p);
    a, b := s[..p + 4], s[p + 4..];
    assert a + b == s;
    assert CrLfAt(a, |a| - 4);
    FeedDiverges(a, b, q);
  }

  lemma FeedDiverges(a: string, b: string, q: nat)
    requires |a| >= 4 && CrLfAt(a, |a| - 4)
    requires q > |a| - 4 && LfAt(a + b, q)
    ensures Concat([a, b]) == a + b && Feed("", [a, b]) != Cut(a + b)
  {
    FeedTwo(a, b);
    CutDiverges(a, b, q);
  }

  /** Frames, separators and the unfinished rest are the same for every segmentation exactly when `Ordered` holds. */
  lemma SegmentationExact(s: string)
    ensures Ordered(s) <==> forall segments | Concat(segments) == s :: Feed("", segments) == Cut(s)
  {
    if Ordered(s) {
      forall segments | Concat(segments) == s
        ensures Feed("", segments) == Cut(s)
      {
        assert "" + Concat(segments) == s;
        FeedIsCut("", segments);
      }
    } else {
      var a, b := UnorderedDiverges(s);
    }
  }

  /** Hence the results of an ordered stream do not depend on how it arrives. */
  lemma ResultsIgnoreSegments(segments: seq<string>)
    requires Ordered(Concat(segments))
    ensures StreamResults(segments) == StreamResults([Concat(segments)])
  {
    var s := Concat(segments);
    SegmentationExact(s);
    FeedOne("", s);
    assert "" + s == s;
  }

  const CRLF_EVENT := "data: a\r\n\r\n"
  const LF_EVENT := "data: b\n\n"

  /** The other order of separators: cut in the middle, this stream gives two events instead of one. */
  lemma MixedSeparatorsDiffer()
    ensures |StreamResults([CRLF_EVENT + LF_EVENT])| == 1
    ensures |StreamResults([CRLF_EVENT, LF_EVENT])| == 2
  {
    var a, b := CRLF_EVENT, LF_EVENT;
    MixedSeparators();
    OneResult(a, 7, 4);
    OneResult(b, 7, 2);
    OneResult(a + b, 18, 2);
    FeedOne("", a + b);
    FeedTwo(a, b);
    assert "" + (a + b) == a + b && "" + b == b;
    ResultsAppend(Cut(a).frames, Cut(b).frames);
  }

  lemma MixedSeparators()
    ensures NextSep(CRLF_EVENT) == Some((7, 4))
    ensures NextSep(LF_EVENT) == Some((7, 2))
    ensures NextSep(CRLF_EVENT + LF_EVENT) == Some((18, 2))
  {
    assert forall i: nat :: !LfAt(CRLF_EVENT, i);
    assert CrLfAt(CRLF_EVENT, 7) && forall i: nat | i < 7 :: !CrLfAt(CRLF_EVENT, i);
    assert LfAt(LF_EVENT, 7) && forall i: nat | i < 7 :: !LfAt(LF_EVENT, i);
    assert LfAt(CRLF_EVENT + LF_EVENT, 18) && forall i: nat | i < 18 :: !LfAt(CRLF_EVENT + LF_EVENT, i);
  }

  lemma OneResult(s: string, p: nat, n: nat)
    requires NextSep(s) == Some((p, n)) && p + n == |s| && p > 0 && !IsSpace(s[0])
    ensures Cut(s).rest == "" && |Results(Cut(s).frames)| == 1
  {
    assert s[p + n..] == "";
    CutFirst(s, p, n, "");
    var lo, hi := TrimSplits(s[..p]);
    assert s[..p][0] == s[0];
    ResultsOne([], Frame(s[..p], s[p..p + n]));
  }
}
