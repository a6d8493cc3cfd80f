/**
  How the events of a stream, not just its frames, depend on the way it is cut into segments: not at all, exactly
  when no frame that "\n\n" ends has text on both sides of a "\r\n\r\n".
*/
module SseResults {
  import opened Text
  import opened SseCodec
  import opened SseSegments
  import opened SseRoundTrip

  /** Some "\r\n\r\n" in the frame lies between two pieces of text that are not blank. */
  ghost predicate TwoSided(body: string) {
    exists p: nat :: CrLfAt(body, p) && !AllSpace(body[..p]) && !AllSpace(body[p + 4..])
  }

  /** The condition on the stream: a caller can check it on the frames of the whole. */
  ghost predicate Calm(s: string) {
    forall f | f in Cut(s).frames && |f.sep| == 2 :: !TwoSided(f.body)
  }

  /** The events of a stream that comes in one segment. */
  function Shown(s: string): seq<ParseResult> {
    Results(Cut(s).frames) + FlushResults(Cut(s).rest)
  }

  // ---- White space in frames ----------------------------------------------------------------

  lemma SplitAt(a: string, i: nat)
    requires IndexOf(a, '\n') == Some(i)
    ensures '\n' !in a[..i] && a == a[..i] + "\n" + a[i + 1..]
  {
  }

  lemma ValuesCons(line: string, rest: seq<string>, name: string)
    ensures Values([line] + rest, name) == Values([line], name) + Values(rest, name)
  {
    ValuesConcat([line], rest, name);
  }

  lemma FirstLineFirst(a: string, i: nat, more: string)
    requires IndexOf(a, '\n') == Some(i)
    ensures Lines(a) == [StripCr(a[..i])] + Lines(a[i + 1..])
    ensures Lines(a + more) == [StripCr(a[..i])] + Lines(a[i + 1..] + more)
  {
    var line, rest := a[..i], a[i + 1..];
    hide Lines, IndexOf, StripCr;
    SplitAt(a, i);
    LinesCons(line, rest);
    LinesCons(line, rest + more);
    Assoc(line + "\n", rest, more);
  }

  lemma LastLineFirst(a: string, w: string)
    requires '\n' !in a
    ensures Lines(a + ("\r\n" + w)) == [a] + Lines(w)
  {
    hide Lines;
    assert a + ("\r\n" + w) == (a + "\r") + "\n" + w;
    LinesCons(a + "\r", w);
  }

  /** A line break keeps the values before it and behind it apart. */
  lemma {:induction false} ValuesSplit(a: string, w: string, name: string)
    ensures Values(Lines(a + ("\r\n" + w)), name) == Values(Lines(a), name) + Values(Lines(w), name)
    decreases |a|
  {
    hide FieldOf, Lines, Values, StripCr;
    var i := IndexOf(a, '\n');
    if i.None? {
      LastLineFirst(a, w);
      ValuesCons(a, Lines(w), name);
      OneLineValues(a, name);
    } else {
      var line, rest := StripCr(a[..i.value]), a[i.value + 1..];
      ValuesSplit(rest, w, name);
      FirstLineFirst(a, i.value, "\r\n" + w);
      ValuesCons(line, Lines(rest), name);
      ValuesCons(line, Lines(rest + ("\r\n" + w)), name);
    }
  }

  lemma OneLineValues(line: string, name: string)
    requires '\n' !in line
    ensures Values(Lines(line), name) == Values([line], name)
  {
    if line == "" {
      assert FieldOf("").None?;
    } else {
      LinesOne(line);
    }
  }

  lemma WhiteLine(line: string, name: string)
    requires AllSpace(line) && !AllSpace(name)
    ensures Values([line], name) == []
  {
    assert IndexOf(line, ':').Some? ==> IsSpace(':');
    assert [line][1..] == [];
  }

  /** Blank text gives no values. */
  lemma {:induction false} WhiteValues(w: string, name: string)
    requires AllSpace(w) && !AllSpace(name)
    ensures Values(Lines(w), name) == []
    decreases |w|
  {
    hide FieldOf, IsSpace;
    if w != "" {
      match IndexOf(w, '\n')
      case None =>
        OneLineValues(w, name);
        WhiteLine(w, name);
      case Some(i) =>
        SplitAt(w, i);
        LinesCons(w[..i], w[i + 1..]);
        ValuesCons(StripCr(w[..i]), Lines(w[i + 1..]), name);
        WhiteValues(w[i + 1..], name);
        WhiteLine(StripCr(w[..i]), name);
    }
  }

  predicate SameValues(x: string, y: string) {
    && Values(Lines(x), "data") == Values(Lines(y), "data") && Values(Lines(x), "event") == Values(Lines(y), "event")
    && Values(Lines(x), "id") == Values(Lines(y), "id")
  }

  lemma SameResult(x: string, y: string)
    requires SameValues(x, y) && (AllSpace(x) <==> AllSpace(y))
    ensures FlushResults(x) == FlushResults(y)
  {
    hide Values, Lines, Trim;
    var lo, hi := TrimSplits(x);
    var lo', hi' := TrimSplits(y);
  }

  lemma NamesAreInk()
    ensures !AllSpace("data") && !AllSpace("event") && !AllSpace("id")
  {
    assert !IsSpace("data"[0]) && !IsSpace("event"[0]) && !IsSpace("id"[0]);
  }

  lemma WhiteConcat(a: string, b: string)
    ensures AllSpace(a + b) <==> AllSpace(a) && AllSpace(b)
  {
    hide IsSpace;
    assert forall i | 0 <= i < |a| :: (a + b)[i] == a[i];
    assert forall i | 0 <= i < |b| :: (a + b)[|a| + i] == b[i];
  }

  lemma Blank(s: string)
    requires AllSpace(s)
    ensures FlushResults(s) == []
  {
    var lo, hi := TrimSplits(s);
  }

  /** White lines behind a frame change nothing. */
  lemma WhiteTail(a: string, w: string)
    requires AllSpace(w)
    ensures FlushResults(a + ("\r\n" + w)) == FlushResults(a)
  {
    hide Values, Lines, FlushResults;
    NamesAreInk();
    ValuesSplit(a, w, "data");
    ValuesSplit(a, w, "event");
    ValuesSplit(a, w, "id");
    WhiteValues(w, "data");
    WhiteValues(w, "event");
    WhiteValues(w, "id");
    WhiteConcat(a, "\r\n" + w);
    WhiteConcat("\r\n", w);
    SameResult(a + ("\r\n" + w), a);
  }

  /** White lines before a frame change nothing. */
  lemma WhiteHead(a: string, b: string)
    requires AllSpace(a)
    ensures FlushResults(a + ("\r\n" + b)) == FlushResults(b)
  {
    hide Values, Lines, FlushResults;
    NamesAreInk();
    ValuesSplit(a, b, "data");
    ValuesSplit(a, b, "event");
    ValuesSplit(a, b, "id");
    WhiteValues(a, "data");
    WhiteValues(a, "event");
    WhiteValues(a, "id");
    WhiteConcat(a, "\r\n" + b);
    WhiteConcat("\r\n", b);
    SameResult(a + ("\r\n" + b), b);
  }

  lemma LeadingLine(b: string)
    ensures FlushResults("\n" + b) == FlushResults(b)
  {
    hide Values, FlushResults;
    assert "" + "\n" + b == "\n" + b;
    LinesCons("", b);
    ValuesCons("", Lines(b), "data");
    ValuesCons("", Lines(b), "event");
    ValuesCons("", Lines(b), "id");
    EmptyLine("data");
    EmptyLine("event");
    EmptyLine("id");
    WhiteConcat("\n", b);
    SameResult("\n" + b, b);
  }

  lemma EmptyLine(name: string)
    ensures Values([StripCr("")], name) == [] && Values([""], name) == []
    ensures forall v: seq<string> :: [] + v == v
  {
    assert [""][1..] == [];
  }

  /** With text on one side at most, it does not matter whether a "\r\n\r\n" is a separator. */
  lemma OneSided(a: string, b: string)
    requires AllSpace(a) || AllSpace(b)
    ensures FlushResults(a + "\r\n\r\n" + b) == FlushResults(a) + FlushResults(b)
  {
    hide FlushResults, IsSpace;
    assert a + "\r\n\r\n" + b == a + ("\r\n" + ("\r\n" + b));
    assert "" + ("\r\n" + b) == "\r\n" + b;
    if AllSpace(a) {
      WhiteHead(a, "\r\n" + b);
      WhiteHead("", b);
      Blank(a);
    } else {
      WhiteConcat("\r\n", b);
      WhiteIsWhite();
      WhiteTail(a, "\r\n" + b);
      Blank(b);
    }
  }

  lemma WhiteIsWhite()
    ensures AllSpace("\r\n") && AllSpace("\r") && AllSpace("\n") && AllSpace("\r\n\r\n")
  {
  }

  // ---- Taking the first frame off -----------------------------------------------------------

  /** Frame by frame. */
  lemma ShownCons(s: string, p: nat, n: nat)
    requires NextSep(s) == Some((p, n))
    ensures Shown(s) == FlushResults(s[..p]) + Shown(s[p + n..])
    ensures Calm(s) <==> (n == 2 ==> !TwoSided(s[..p])) && Calm(s[p + n..])
  {
    hide TwoSided, Trim, EventOf, NextSep;
    var f, later := Frame(s[..p], s[p..p + n]), Cut(s[p + n..]);
    CutFirst(s, p, n, s[p + n..]);
    hide Cut, FlushResults, Results;
    ResultsFirst(f, later.frames);
    Regroup(FlushResults(f.body), Results(later.frames), FlushResults(later.rest));
    assert forall x :: x in [f] + later.frames <==> x == f || x in later.frames;
  }

  lemma ShownRest(s: string)
    requires NextSep(s).None?
    ensures Shown(s) == FlushResults(s) && Calm(s) && Cut(s) == Cutting([], s)
  {
  }

  lemma LfFirst(s: string, p: nat)
    requires FindLf(s, 0) == Some(p)
    ensures p + 2 <= |s| && Shown(s) == FlushResults(s[..p]) + Shown(s[p + 2..])
    ensures Calm(s) <==> !TwoSided(s[..p]) && Calm(s[p + 2..])
  {
    hide Shown, Calm, TwoSided, FlushResults;
    LfIsNext(s, p);
    ShownCons(s, p, 2);
  }

  lemma LfIsNext(s: string, p: nat)
    requires FindLf(s, 0) == Some(p)
    ensures NextSep(s) == Some((p, 2)) && p + 2 <= |s|
  {
  }

  // ---- A leading newline --------------------------------------------------------------------

  lemma SepShifts(x: string)
    requires x == "" || x[0] != '\n'
    ensures NextSep("\n" + x) == match NextSep(x) case None => None case Some((p, n)) => Some((p + 1, n))
  {
    var y := "\n" + x;
    assert forall i: nat :: LfAt(y, i + 1) <==> LfAt(x, i);
    assert forall i: nat :: CrLfAt(y, i + 1) <==> CrLfAt(x, i);
    assert !LfAt(y, 0) && !CrLfAt(y, 0);
    ShiftLf(x, y);
    ShiftCrLf(x, y);
  }

  lemma ShiftLf(x: string, y: string)
    requires !LfAt(y, 0) && forall i: nat :: LfAt(y, i + 1) <==> LfAt(x, i)
    ensures FindLf(y, 0) == match FindLf(x, 0) case None => None case Some(p) => Some(p + 1)
  {
    var f, g := FindLf(x, 0), FindLf(y, 0);
    hide LfAt;
    if f.Some? { assert LfAt(y, f.value + 1); }
    if g.Some? {
      assert g.value > 0;
      assert LfAt(x, g.value - 1);
    }
  }

  lemma ShiftCrLf(x: string, y: string)
    requires !CrLfAt(y, 0) && forall i: nat :: CrLfAt(y, i + 1) <==> CrLfAt(x, i)
    ensures FindCrLf(y, 0) == match FindCrLf(x, 0) case None => None case Some(p) => Some(p + 1)
  {
    var f, g := FindCrLf(x, 0), FindCrLf(y, 0);
    hide CrLfAt;
    if f.Some? { assert CrLfAt(y, f.value + 1); }
    if g.Some? {
      assert g.value > 0;
      assert CrLfAt(x, g.value - 1);
    }
  }

  /** White text before a frame does not make it two-sided, nor hide that it is. */
  lemma TwoSidedShifts(w: string, body: string)
    requires AllSpace(w) && (forall p: nat | p < |w| :: !CrLfAt(w + body, p))
    ensures TwoSided(w + body) <==> TwoSided(body)
  {
    var y, k := w + body, |w|;
    hide IsSpace;
    forall p: nat | CrLfAt(body, p)
      ensures CrLfAt(y, p + k) && y[..p + k] == w + body[..p] && y[p + k + 4..] == body[p + 4..]
      ensures AllSpace(y[..p + k]) <==> AllSpace(body[..p])
    {
      WhiteConcat(w, body[..p]);
    }
    forall q: nat | CrLfAt(y, q)
      ensures q >= k && CrLfAt(body, q - k)
    {
    }
  }

  /** An empty line before everything changes no event. */
  lemma {:induction false} LeadingNewline(x: string)
    ensures Shown("\n" + x) == Shown(x) && (Calm("\n" + x) <==> Calm(x))
    decreases |x|
  {
    hide Shown, Calm, FlushResults;
    var y := "\n" + x;
    if x != "" && x[0] == '\n' {
      assert LfAt(y, 0);
      LfFirst(y, 0);
      Nothing(y);
      var x' := x[1..];
      assert y[2..] == x' && x == "\n" + x';
      LeadingNewline(x');
    } else {
      SepShifts(x);
      var sep := NextSep(x);
      if sep.None? {
        ShownRest(x);
        ShownRest(y);
        LeadingLine(x);
      } else {
        var (p, n) := sep.value;
        ShownCons(x, p, n);
        ShownCons(y, p + 1, n);
        assert y[..p + 1] == "\n" + x[..p] && y[p + 1 + n..] == x[p + n..];
        LeadingLine(x[..p]);
        WhiteIsWhite();
        assert !CrLfAt("\n" + x[..p], 0);
        TwoSidedShifts("\n", x[..p]);
      }
    }
  }

  lemma Nothing(y: string)
    ensures y[..0] == "" && FlushResults("") == [] && !TwoSided("")
    ensures forall r: seq<ParseResult> :: [] + r == r
  {
    Blank("");
  }

  // ---- Calm streams -------------------------------------------------------------------------

  /** What follows from taking in `a` first and `b` then. */
  ghost predicate Agrees(a: string, b: string) {
    var c := Cut(a);
    Shown(a + b) == Results(c.frames) + Shown(c.rest + b) && Calm(c.rest + b)
  }

  lemma AgreesCons(a: string, b: string, p: nat, n: nat)
    requires NextSep(a) == Some((p, n)) && Agrees(a[p + n..], b)
    requires Shown(a + b) == FlushResults(a[..p]) + Shown(a[p + n..] + b)
    ensures Agrees(a, b)
  {
    hide Calm, Trim, EventOf, FlushResults, Shown;
    var a' := a[p + n..];
    var c := Cut(a');
    var f := Frame(a[..p], a[p..p + n]);
    CutFirst(a, p, n, a');
    ResultsFirst(f, c.frames);
    Regroup(FlushResults(a[..p]), Results(c.frames), Shown(c.rest + b));
  }

  lemma ResultsFirst(f: Frame, more: seq<Frame>)
    ensures Results([f] + more) == FlushResults(f.body) + Results(more)
  {
    assert ([f] + more)[1..] == more;
  }

  lemma Regroup(a: seq<ParseResult>, b: seq<ParseResult>, c: seq<ParseResult>)
    ensures (a + b) + c == a + (b + c)
  {
  }

  /** A "\r\n\r\n" was taken for a separator, and then a "\n\n" came. */
  lemma EarlyCut(s: string, p: nat, q: nat)
    requires CrLfAt(s, p) && FindLf(s, 0) == Some(q) && p + 4 <= q && Calm(s)
    ensures Shown(s) == FlushResults(s[..p]) + Shown(s[p + 4..]) && Calm(s[p + 4..])
  {
    hide Shown, Calm, FlushResults, IsSpace;
    var x, y, t := s[..p], s[p + 4..q], s[p + 4..];
    var body := s[..q];
    LfFirst(s, q);
    assert CrLfAt(body, p) && body[..p] == x && body[p + 4..] == y;
    assert body == x + "\r\n\r\n" + y;
    OneSided(x, y);
    LfLater(s, p + 4, q);
    LfFirst(t, q - p - 4);
    assert t[..q - p - 4] == y && t[q - p - 4 + 2..] == s[q + 2..];
    PartNotTwoSided(x, y);
    Regroup(FlushResults(x), FlushResults(y), Shown(s[q + 2..]));
  }

  lemma LfLater(s: string, k: nat, q: nat)
    requires k <= q && FindLf(s, 0) == Some(q)
    ensures FindLf(s[k..], 0) == Some(q - k)
  {
    var t := s[k..];
    assert LfAt(t, q - k);
    assert forall i: nat | i < q - k :: LfAt(t, i) ==> LfAt(s, i + k);
  }

  lemma PartNotTwoSided(x: string, y: string)
    requires !TwoSided(x + "\r\n\r\n" + y)
    ensures !TwoSided(y)
  {
    var body, k := x + "\r\n\r\n" + y, |x| + 4;
    hide IsSpace;
    forall p: nat | CrLfAt(y, p) && !AllSpace(y[..p])
      ensures AllSpace(y[p + 4..])
    {
      assert CrLfAt(body, p + k);
      assert body[..p + k] == (x + "\r\n\r\n") + y[..p] && body[p + k + 4..] == y[p + 4..];
      WhiteConcat(x + "\r\n\r\n", y[..p]);
    }
  }

  /** The "\n\n" that came shares its first newline with the "\r\n\r\n". */
  lemma SharedNewline(s: string, p: nat)
    requires CrLfAt(s, p) && FindLf(s, 0) == Some(p + 3) && Calm(s)
    ensures Shown(s) == FlushResults(s[..p]) + Shown(s[p + 4..]) && Calm(s[p + 4..])
  {
    hide Shown, Calm, FlushResults, IsSpace;
    LfFirst(s, p + 3);
    assert s[..p + 3] == s[..p] + ("\r\n" + "\r");
    WhiteIsWhite();
    WhiteTail(s[..p], "\r");
    var x := s[p + 5..];
    assert s[p + 4..] == "\n" + x;
    LeadingNewline(x);
  }

  lemma {:induction false} CalmAgrees(a: string, b: string)
    requires Calm(a + b)
    ensures Agrees(a, b)
    decreases |a|
  {
    hide Calm, Shown, FlushResults, Cut, Agrees;
    var sep := NextSep(a);
    if sep.None? {
      AgreesHere(a, b);
    } else {
      var (p, n) := sep.value;
      var s, a' := a + b, a[p + n..];
      Beyond(a, b, p, p + n);
      SepKinds(a, b, p, n);
      var q := FindLf(s, 0);
      if n == 2 || q.None? {
        ShownCons(s, p, n);
      } else if q.value == p + 3 {
        SharedNewline(s, p);
      } else {
        EarlyCut(s, p, q.value);
      }
      CalmAgrees(a', b);
      AgreesCons(a, b, p, n);
    }
  }

  lemma Beyond(a: string, b: string, p: nat, k: nat)
    requires p <= k <= |a|
    ensures (a + b)[..p] == a[..p] && (a + b)[k..] == a[k..] + b
  {
  }

  lemma AgreesHere(a: string, b: string)
    requires NextSep(a).None? && Calm(a + b)
    ensures Agrees(a, b)
  {
    hide Calm, Shown;
    Nothing(a);
  }

  lemma SepKinds(a: string, b: string, p: nat, n: nat)
    requires NextSep(a) == Some((p, n))
    ensures
      var q := FindLf(a + b, 0);
      && (n == 2 ==> NextSep(a + b) == Some((p, 2)))
      && (n != 2 ==> n == 4 && CrLfAt(a + b, p))
      && (n == 4 && q.None? ==> NextSep(a + b) == Some((p, 4)))
      && (n == 4 && q.Some? ==> q.value >= p + 3)
  {
    var s := a + b;
    if n == 2 {
      LfIsStable(a, b, p);
    } else {
      assert CrLfAt(s, p) && forall i: nat | i < p :: CrLfAt(s, i) ==> CrLfAt(a, i);
      assert forall i: nat | i + 2 <= |a| :: LfAt(s, i) ==> LfAt(a, i);
    }
  }

  /** The events from a state of the buffer on: one parse per segment, and a flush. */
  lemma {:induction false} CalmFeed(buf: string, segments: seq<string>)
    requires Calm(buf + Concat(segments)) && NextSep(buf).None?
    ensures
      var all := Feed(buf, segments);
      Results(all.frames) + FlushResults(all.rest) == Shown(buf + Concat(segments))
    decreases |segments|
  {
    hide Calm, FlushResults, Cut, NextSep;
    if segments == [] {
      assert buf + Concat(segments) == buf;
      ShownRest(buf);
      Nothing(buf);
    } else {
      var a, b := buf + segments[0], Concat(segments[1..]);
      Assoc(buf, segments[0], b);
      CalmAgrees(a, b);
      CutConserves(a);
      CalmFeed(Cut(a).rest, segments[1..]);
      var later := Feed(Cut(a).rest, segments[1..]);
      ResultsAppend(Cut(a).frames, later.frames);
      Regroup(Results(Cut(a).frames), Results(later.frames), FlushResults(later.rest));
    }
  }

  // ---- Streams that are not calm ------------------------------------------------------------

  /** How a cut makes more events: `a` first, then `b`. */
  ghost predicate TellsMore(a: string, b: string) {
    var c := Cut(a);
    |Results(c.frames)| + |Shown(c.rest + b)| > |Shown(a + b)|
  }

  lemma {:induction false} NoEventMeansBlank(frames: seq<Frame>)
    requires Results(frames) == [] && forall f | f in frames :: AllSpace(f.sep)
    ensures AllSpace(Uncut(frames))
  {
    hide EventOf, IsSpace, Trim;
    if frames != [] {
      var f := frames[0];
      var lo, hi := TrimSplits(f.body);
      assert f in frames && forall x | x in frames[1..] :: x in frames;
      NoEventMeansBlank(frames[1..]);
      WhiteConcat(f.body, f.sep);
      WhiteConcat(f.body + f.sep, Uncut(frames[1..]));
    }
  }

  lemma {:induction false} SepsAreWhite(s: string)
    ensures forall f | f in Cut(s).frames :: AllSpace(f.sep)
    decreases |s|
  {
    match NextSep(s)
    case None =>
    case Some((p, n)) =>
      SepIsWhite(s, p, n);
      SepsAreWhite(s[p + n..]);
  }

  lemma SepIsWhite(s: string, p: nat, n: nat)
    requires NextSep(s) == Some((p, n))
    ensures AllSpace(s[p..p + n])
  {
  }

  lemma PartOfSep(a: string, k: nat)
    requires |a| >= 4 && CrLfAt(a, |a| - 4) && k <= |a| && (forall i: nat :: !CrLfAt(a[k..], i))
    ensures |a| - k < 4 && AllSpace(a[k..])
  {
    if |a| - k >= 4 {
      assert CrLfAt(a[k..], |a| - 4 - k);
    }
    assert forall i | 0 <= i < |a| - k :: a[k..][i] == a[k + i];
  }

  /** What stays behind a text that ends in "\r\n\r\n" is a part of that. */
  lemma ShortRest(a: string)
    requires |a| >= 4 && CrLfAt(a, |a| - 4)
    ensures
      var r := Cut(a).rest;
      |r| < 4 && AllSpace(r) && r == a[|a| - |r|..]
  {
    CutConserves(a);
    hide Cut, IsSpace;
    var u, r := Uncut(Cut(a).frames), Cut(a).rest;
    assert a == u + r && a[|u|..] == r;
    PartOfSep(a, |u|);
  }

  lemma BlankWithoutEvent(a: string)
    ensures Results(Cut(a).frames) == [] && AllSpace(Cut(a).rest) ==> AllSpace(a)
  {
    hide IsSpace, Cut;
    CutConserves(a);
    SepsAreWhite(a);
    WhiteConcat(Uncut(Cut(a).frames), Cut(a).rest);
    if Results(Cut(a).frames) == [] {
      NoEventMeansBlank(Cut(a).frames);
    }
  }

  lemma SomeEvent(a: string)
    requires |a| >= 4 && CrLfAt(a, |a| - 4) && !AllSpace(a[..|a| - 4])
    ensures |Results(Cut(a).frames)| > 0
  {
    hide IsSpace, Cut, CrLfAt;
    ShortRest(a);
    BlankWithoutEvent(a);
    assert a[..|a| - 4] + a[|a| - 4..] == a;
    WhiteConcat(a[..|a| - 4], a[|a| - 4..]);
  }

  lemma OneEvent(s: string)
    ensures |FlushResults(s)| == if AllSpace(s) then 0 else 1
  {
    var lo, hi := TrimSplits(s);
  }

  /** From inside a first frame on, one event of what is left of it, and the rest. */
  lemma FromInside(s: string, k: nat, q: nat)
    requires FindLf(s, 0) == Some(q) && k <= q && !AllSpace(s[k..q])
    ensures |Shown(s[k..])| == 1 + |Shown(s[q + 2..])|
  {
    hide Shown, IsSpace, FlushResults;
    var t := s[k..];
    LfLater(s, k, q);
    LfFirst(t, q - k);
    assert t[..q - k] == s[k..q] && t[q - k + 2..] == s[q + 2..];
    OneEvent(s[k..q]);
  }

  lemma InkInside(s: string, k: nat, m: nat, q: nat)
    requires k <= m <= q <= |s| && !AllSpace(s[m..q])
    ensures !AllSpace(s[k..q])
  {
    hide IsSpace;
    assert s[k..q] == s[k..m] + s[m..q];
    WhiteConcat(s[k..m], s[m..q]);
  }

  lemma RestBehind(a: string, b: string, rest: string)
    requires |rest| <= |a| && rest == a[|a| - |rest|..]
    ensures rest + b == (a + b)[|a| - |rest|..]
  {
  }

  /** A cut right behind the "\r\n\r\n" in the first frame. */
  lemma CutHere(s: string, p: nat, q: nat)
    requires FindLf(s, 0) == Some(q) && p + 4 <= q && CrLfAt(s, p) && !AllSpace(s[..p]) && !AllSpace(s[p + 4..q])
    ensures TellsMore(s[..p + 4], s[p + 4..])
  {
    hide Shown, IsSpace, FlushResults, Results, Cut;
    var a, b := s[..p + 4], s[p + 4..];
    assert a + b == s && CrLfAt(a, |a| - 4) && a[..|a| - 4] == s[..p];
    SomeEvent(a);
    ShortRest(a);
    var k: nat := p + 4 - |Cut(a).rest|;
    RestBehind(a, b, Cut(a).rest);
    InkInside(s, k, p + 4, q);
    FromInside(s, k, q);
    InkInside(s, 0, p + 4, q);
    FromInside(s, 0, q);
    assert s[0..] == s;
  }

  lemma HeadAndTail(s: string, k: nat, q: nat, a: string, b: string)
    requires q <= k <= |s| && a + b == s[k..]
    ensures
      var h := s[..k] + a;
      h + b == s && h[..k] == s[..k] && h[..q] == s[..q] && h[k..] == a
  {
    var h := s[..k] + a;
    Assoc(s[..k], a, b);
    assert s[..k] + s[k..] == s;
    assert h[..k] == s[..k];
    assert h[..q] == h[..k][..q] && s[..q] == s[..k][..q];
  }

  lemma PutFirst(h: string, q: nat, a: string)
    requires FindLf(h, 0) == Some(q) && q + 2 <= |h| && h[q + 2..] == a
    ensures Cut(h).rest == Cut(a).rest
    ensures Results(Cut(h).frames) == FlushResults(h[..q]) + Results(Cut(a).frames)
  {
    hide FlushResults, Trim, EventOf, Results;
    CutFirst(h, q, 2, a);
    ResultsFirst(Frame(h[..q], h[q..q + 2]), Cut(a).frames);
  }

  lemma CutLater(s: string, q: nat, a: string, b: string)
    requires FindLf(s, 0) == Some(q) && q + 2 <= |s| && a + b == s[q + 2..] && TellsMore(a, b)
    ensures s[..q + 2] + a + b == s && TellsMore(s[..q + 2] + a, b)
  {
    hide Shown, FlushResults, Results, Cut, Calm;
    var h := s[..q + 2] + a;
    HeadAndTail(s, q + 2, q, a, b);
    LfKept(s, h, q);
    PutFirst(h, q, a);
    LfFirst(s, q);
  }

  lemma LfKept(s: string, h: string, q: nat)
    requires FindLf(s, 0) == Some(q) && q + 2 <= |h| && q + 2 <= |s| && h[..q + 2] == s[..q + 2]
    ensures FindLf(h, 0) == Some(q)
  {
    assert forall i | 0 <= i < q + 2 :: h[i] == h[..q + 2][i] == s[..q + 2][i] == s[i];
    assert LfAt(h, q);
    assert forall i: nat | i < q :: LfAt(h, i) ==> LfAt(s, i);
  }

  lemma SepIsLf(s: string, p: nat)
    requires NextSep(s) == Some((p, 2))
    ensures FindLf(s, 0) == Some(p) && p + 2 <= |s|
  {
  }

  lemma CutFirstFrame(s: string, q: nat) returns (a: string, b: string)
    requires NextSep(s) == Some((q, 2)) && TwoSided(s[..q])
    ensures a + b == s && TellsMore(a, b)
  {
    hide TellsMore, IsSpace;
    SepIsLf(s, q);
    var k := TwoSides(s[..q]);
    assert CrLfAt(s, k) && s[..q][..k] == s[..k] && s[..q][k + 4..] == s[k + 4..q];
    CutHere(s, k, q);
    a, b := s[..k + 4], s[k + 4..];
  }

  /** A two-sided frame can be cut so that more events come out. */
  lemma {:induction false} NotCalmTellsMore(s: string) returns (a: string, b: string)
    requires !Calm(s)
    ensures a + b == s && TellsMore(a, b)
    decreases |s|
  {
    hide Shown, TellsMore, TwoSided, Calm, IsSpace, NextSep, Cut;
    var sep := NextSep(s);
    if sep.None? {
      ShownRest(s);
    }
    var (p, n) := sep.value;
    ShownCons(s, p, n);
    if n == 2 && TwoSided(s[..p]) {
      a, b := CutFirstFrame(s, p);
    } else {
      SepsAfterCrLf(s, p, n);
      a, b := NotCalmTellsMore(s[p + n..]);
      SepIsLf(s, p);
      CutLater(s, p, a, b);
      a := s[..p + 2] + a;
    }
  }

  lemma TwoSides(body: string) returns (p: nat)
    requires TwoSided(body)
    ensures CrLfAt(body, p) && !AllSpace(body[..p]) && !AllSpace(body[p + 4..])
  {
    p :| CrLfAt(body, p) && !AllSpace(body[..p]) && !AllSpace(body[p + 4..]);
  }

  /** Once no "\n\n" is left, all frames end in "\r\n\r\n". */
  lemma SepsAfterCrLf(s: string, p: nat, n: nat)
    requires NextSep(s) == Some((p, n)) && !Calm(s[p + n..])
    ensures n == 2
  {
    hide Calm;
    var t := s[p + n..];
    assert forall i: nat :: LfAt(t, i) ==> LfAt(s, i + p + n);
    NoLfIsCalm(t);
  }

  lemma {:induction false} NoLfIsCalm(s: string)
    ensures (forall i: nat :: !LfAt(s, i)) ==> Calm(s)
    decreases |s|
  {
    hide Calm;
    if forall i: nat :: !LfAt(s, i) {
      match NextSep(s)
      case None => ShownRest(s);
      case Some((p, n)) =>
        var t := s[p + n..];
        assert forall i: nat :: LfAt(t, i) ==> LfAt(s, i + p + n);
        NoLfIsCalm(t);
        ShownCons(s, p, n);
    }
  }

  /**
    The events are the same for every segmentation if and only if no frame that "\n\n" ends has text on both sides
    of a "\r\n\r\n".
   */
  lemma EventsExact(s: string)
    ensures Calm(s) <==> forall segments | Concat(segments) == s :: StreamResults(segments) == StreamResults([s])
  {
    hide Calm, Shown, FlushResults, Results;
    WholeShown(s);
    if Calm(s) {
      forall segments | Concat(segments) == s
        ensures StreamResults(segments) == StreamResults([s])
      {
        assert "" + Concat(segments) == s;
        CalmFeed("", segments);
      }
    } else {
      var a, b := NotCalmTellsMore(s);
      FeedTwo(a, b);
      TwoSegments(a, b);
    }
  }

  lemma WholeShown(s: string)
    ensures StreamResults([s]) == Shown(s)
  {
    FeedOne("", s);
    assert "" + s == s;
  }

  lemma TwoSegments(a: string, b: string)
    ensures |StreamResults([a, b])| == |Results(Cut(a).frames)| + |Shown(Cut(a).rest + b)|
  {
    FeedTwo(a, b);
    ResultsAppend(Cut(a).frames, Cut(Cut(a).rest + b).frames);
  }
}
