/**
  Printing and parsing: which chunks come back from the wire unchanged, and that lists of them do so
  under every segmentation.
*/
module SseRoundTrip {
  import opened Text
  import opened SseCodec
  import opened SseSegments

  // ---- The printer --------------------------------------------------------------------------

  function HeaderLine(name: string, value: Option<string>): string {
    match value
    case None => ""
    case Some(v) => name + ": " + v + "\n"
  }

  function Headers(c: SseChunk): string {
    HeaderLine("event", c.event) + HeaderLine("id", c.id)
  }

  function Body(c: SseChunk): string {
    Headers(c) + ("data: " + c.data)
  }

  function WireText(c: SseChunk): string {
    Headers(c) + "data: " + c.data + "\n\n"
  }

  method Serialize(c: SseChunk) returns (out: string)
    ensures out == WireText(c)
  {
    out := "";
    if c.event.Some? {
      out := out + "event: ";
      out := out + c.event.value;
      out := out + "\n";
    }
    assert out == HeaderLine("event", c.event);
    if c.id.Some? {
      out := out + "id: ";
      out := out + c.id.value;
      out := out + "\n";
    }
    assert out == Headers(c);
    out := out + "data: ";
    out := out + c.data;
    out := out + "\n\n";
  }

  /** On the wire the event comes first, then the id, each on a line if there is one, then the data and a blank line. */
  lemma WireForm(c: SseChunk)
    ensures
      var event := if c.event.Some? then "event: " + c.event.value + "\n" else "";
      var id := if c.id.Some? then "id: " + c.id.value + "\n" else "";
      WireText(c) == event + id + ("data: " + c.data + "\n\n")
  {
    var event, id := HeaderLine("event", c.event), HeaderLine("id", c.id);
    HeaderForm("event", c.event);
    HeaderForm("id", c.id);
    hide HeaderLine;
    assert WireText(c) == event + id + ("data: " + c.data + "\n\n");
  }

  lemma HeaderForm(name: string, value: Option<string>)
    ensures HeaderLine(name, value) == if value.Some? then name + ": " + value.value + "\n" else ""
  {
  }

  function WireAll(chunks: seq<SseChunk>): string {
    if chunks == [] then "" else WireText(chunks[0]) + WireAll(chunks[1..])
  }

  // ---- Which chunks survive -----------------------------------------------------------------

  predicate OneLine(value: Option<string>) {
    value.Some? ==> '\n' !in value.value
  }

  predicate SurvivesHeader(value: Option<string>) {
    OneLine(value) && (value.Some? ==> StripCr(value.value) == value.value)
  }

  /** No line feed anywhere, and no carriage return at the end of `event` or `id`. */
  predicate Clean(c: SseChunk) {
    '\n' !in c.data && SurvivesHeader(c.event) && SurvivesHeader(c.id)
  }

  function StripHeader(value: Option<string>): Option<string> {
    match value
    case None => None
    case Some(v) => Some(StripCr(v))
  }

  // ---- Lines and fields ---------------------------------------------------------------------

  lemma IndexAfter(a: string, c: char, rest: string)
    requires c !in a
    ensures IndexOf(a + [c] + rest, c) == Some(|a|)
  {
    var s := a + [c] + rest;
    assert s[|a|] == c;
    assert forall k | 0 <= k < |a| :: s[k] == a[k];
  }

  lemma LinesCons(line: string, rest: string)
    requires '\n' !in line
    ensures Lines(line + "\n" + rest) == [StripCr(line)] + Lines(rest)
  {
    IndexAfter(line, '\n', rest);
    var s := line + "\n" + rest;
    assert s[..|line|] == line && s[|line| + 1..] == rest;
  }

  lemma LinesOne(line: string)
    requires '\n' !in line && line != ""
    ensures Lines(line) == [line]
  {
  }

  lemma {:induction false} ValuesConcat(a: seq<string>, b: seq<string>, name: string)
    ensures Values(a + b, name) == Values(a, name) + Values(b, name)
  {
    if a == [] {
      assert a + b == b;
    } else {
      assert (a + b)[1..] == a[1..] + b;
      ValuesConcat(a[1..], b, name);
    }
  }

  lemma FieldBack(name: string, value: string)
    requires name != "" && ':' !in name
    ensures FieldOf(name + ": " + value) == Some(Field(name, value))
    ensures FieldOf(StripCr(name + ": " + value)) == Some(Field(name, StripCr(value)))
    ensures '\n' !in name && '\n' !in value ==> '\n' !in name + ": " + value
  {
    FieldOfPlain(name, value);
    FieldOfPlain(name, StripCr(value));
    StripCrTail(name + ": ", value);
  }

  lemma StripCrTail(head: string, tail: string)
    requires head != "" && head[|head| - 1] != '\r'
    ensures StripCr(head + tail) == head + StripCr(tail)
  {
    var line := head + tail;
    if tail == "" {
      assert line == head;
    } else {
      assert line[|line| - 1] == tail[|tail| - 1];
      assert line[..|line| - 1] == head + tail[..|tail| - 1];
    }
  }

  lemma FieldOfPlain(name: string, value: string)
    requires name != "" && ':' !in name
    ensures FieldOf(name + ": " + value) == Some(Field(name, value))
  {
    var line := name + ": " + value;
    IndexAfter(name, ':', " " + value);
    assert line == name + ":" + (" " + value);
    assert line[0] == name[0];
    assert line[..|name|] == name && line[|name| + 1..] == " " + value;
    assert (" " + value)[1..] == value;
  }

  /** A header line contributes its value, less one trailing "\r", to its own field only. */
  lemma HeaderValues(name: string, value: Option<string>, rest: string, wanted: string)
    requires name != "" && ':' !in name && '\n' !in name && OneLine(value)
    ensures Values(Lines(HeaderLine(name, value) + rest), wanted) ==
            HeaderValue(name, value, wanted) + Values(Lines(rest), wanted)
  {
    match value
    case None =>
      assert HeaderLine(name, value) + rest == rest;
    case Some(v) =>
      var line := name + ": " + v;
      FieldBack(name, v);
      assert HeaderLine(name, value) + rest == line + "\n" + rest;
      LinesCons(line, rest);
      ValuesConcat([StripCr(line)], Lines(rest), wanted);
      LineValues(name, v, wanted);
  }

  function HeaderValue(name: string, value: Option<string>, wanted: string): seq<string> {
    if value.Some? && name == wanted then [StripCr(value.value)] else []
  }

  lemma HeadersValues(c: SseChunk, rest: string, wanted: string)
    requires OneLine(c.event) && OneLine(c.id)
    ensures Values(Lines(Headers(c) + rest), wanted) ==
            HeaderValue("event", c.event, wanted) + (HeaderValue("id", c.id, wanted) + Values(Lines(rest), wanted))
  {
    var e, i := HeaderLine("event", c.event), HeaderLine("id", c.id);
    assert Headers(c) + rest == e + (i + rest);
    HeaderValues("event", c.event, i + rest, wanted);
    HeaderValues("id", c.id, rest, wanted);
  }

  lemma LineValues(name: string, value: string, wanted: string)
    requires name != "" && ':' !in name
    ensures Values([name + ": " + value], wanted) == if name == wanted then [value] else []
    ensures Values([StripCr(name + ": " + value)], wanted) == if name == wanted then [StripCr(value)] else []
  {
    FieldBack(name, value);
    var a, b := [name + ": " + value], [StripCr(name + ": " + value)];
    assert a[1..] == [] && b[1..] == [];
  }

  lemma DataLine(data: string, wanted: string)
    requires '\n' !in data
    ensures Values(Lines("data: " + data), wanted) == if "data" == wanted then [data] else []
  {
    var line := "data" + ": " + data;
    assert line == "data: " + data;
    LineValues("data", data, wanted);
    FieldBack("data", data);
    LinesOne(line);
  }

  lemma ReadBackField(c: SseChunk, wanted: string)
    requires OneLine(c.event) && OneLine(c.id) && '\n' !in c.data
    ensures Values(Lines(Headers(c) + ("data: " + c.data)), wanted) ==
            HeaderValue("event", c.event, wanted) +
            (HeaderValue("id", c.id, wanted) + (if "data" == wanted then [c.data] else []))
  {
    HeadersValues(c, "data: " + c.data, wanted);
    DataLine(c.data, wanted);
  }

  /** The frame of a chunk without line feeds reads back as the chunk with its headers stripped. */
  lemma ReadBack(c: SseChunk)
    requires OneLine(c.event) && OneLine(c.id) && '\n' !in c.data
    ensures EventOf(Body(c)) == Parsed(SseChunk(StripHeader(c.event), c.data, StripHeader(c.id)))
  {
    ReadBackField(c, "data");
    ReadBackField(c, "event");
    ReadBackField(c, "id");
  }

  lemma CleanReadsBack(c: SseChunk)
    requires OneLine(c.event) && OneLine(c.id) && '\n' !in c.data
    ensures EventOf(Body(c)) == Parsed(c) <==> Clean(c)
  {
    ReadBack(c);
  }

  // ---- Frames on the wire -------------------------------------------------------------------

  /** Every "\n" in `s` is followed, within `s`, by neither "\n" nor "\r", and `s` starts with neither. */
  predicate Solid(s: string) {
    && s != "" && s[0] != '\n' && s[0] != '\r'
    && forall i | 0 <= i < |s| && s[i] == '\n' :: i + 1 < |s| && s[i + 1] != '\n' && s[i + 1] != '\r'
  }

  lemma SolidCons(line: string, s: string)
    requires line != "" && line[0] != '\r' && '\n' !in line && Solid(s)
    ensures Solid(line + "\n" + s)
  {
    var t := line + "\n" + s;
    assert forall i | 0 <= i < |line| :: t[i] == line[i];
    assert forall i | |line| < i < |t| :: t[i] == s[i - |line| - 1];
  }

  lemma HeaderSolid(name: string, value: Option<string>, s: string)
    requires name != "" && '\n' !in name && name[0] != '\r' && OneLine(value) && Solid(s)
    ensures Solid(HeaderLine(name, value) + s)
  {
    if value.Some? {
      var line := name + ": " + value.value;
      SolidCons(line, s);
      assert HeaderLine(name, value) + s == line + "\n" + s;
    } else {
      assert HeaderLine(name, value) + s == s;
    }
  }

  lemma HeadersSolid(c: SseChunk, s: string)
    requires OneLine(c.event) && OneLine(c.id) && Solid(s)
    ensures Solid(Headers(c) + s)
  {
    HeaderSolid("id", c.id, s);
    HeaderSolid("event", c.event, HeaderLine("id", c.id) + s);
    assert Headers(c) + s == HeaderLine("event", c.event) + (HeaderLine("id", c.id) + s);
  }

  lemma SolidSep(body: string, rest: string)
    requires Solid(body)
    ensures NextSep(body + "\n\n" + rest) == Some((|body|, 2))
  {
    var s := body + "\n\n" + rest;
    assert LfAt(s, |body|);
    forall i: nat | i < |body|
      ensures !LfAt(s, i)
    {
      assert s[i] == body[i];
      if body[i] == '\n' { assert s[i + 1] == body[i + 1]; }
    }
  }

  lemma BodyNotBlank(c: SseChunk, data: string)
    ensures Trim(Headers(c) + ("data: " + data)) != ""
  {
    var body := Headers(c) + ("data: " + data);
    var lo, hi := TrimSplits(body);
    assert body[|Headers(c)|] == 'd';
  }

  lemma FrameBack(c: SseChunk, rest: string)
    requires OneLine(c.event) && OneLine(c.id) && '\n' !in c.data
    ensures
      && Cut(WireText(c) + rest) == Then([Frame(Body(c), "\n\n")], Cut(rest))
      && Results([Frame(Body(c), "\n\n")]) == [EventOf(Body(c))]
  {
    var body := Body(c);
    LineIsSolid(c.data);
    HeadersSolid(c, "data: " + c.data);
    BodyNotBlank(c, c.data);
    WireIsBody(c);
    hide Headers, Trim, EventOf, Cut, Solid;
    SolidSep(body, rest);
    var s := body + "\n\n" + rest;
    BodyFirst(body, rest);
    CutFirst(s, |body|, 2, rest);
    ResultsOne([], Frame(body, "\n\n"));
  }

  lemma LineIsSolid(data: string)
    requires '\n' !in data
    ensures Solid("data: " + data)
  {
  }

  lemma WireIsBody(c: SseChunk)
    ensures WireText(c) == Body(c) + "\n\n"
  {
    Assoc(Headers(c), "data: ", c.data);
  }

  lemma BodyFirst(body: string, rest: string)
    ensures
      var s := body + "\n\n" + rest;
      s[..|body|] == body && s[|body|..|body| + 2] == "\n\n" && s[|body| + 2..] == rest
  {
  }

  // ---- Lists of chunks ----------------------------------------------------------------------

  function ParsedAll(chunks: seq<SseChunk>): seq<ParseResult> {
    if chunks == [] then [] else [Parsed(chunks[0])] + ParsedAll(chunks[1..])
  }

  lemma {:induction false} WireCut(chunks: seq<SseChunk>)
    requires forall c | c in chunks :: Clean(c)
    ensures Results(Cut(WireAll(chunks)).frames) == ParsedAll(chunks)
    ensures Cut(WireAll(chunks)).rest == ""
  {
    if chunks == [] {
      assert NextSep("").None?;
    } else {
      var c, rest := chunks[0], WireAll(chunks[1..]);
      assert Clean(c);
      WireCut(chunks[1..]);
      OneChunkCut(c, rest);
    }
  }

  lemma OneChunkCut(c: SseChunk, rest: string)
    requires Clean(c)
    ensures Results(Cut(WireText(c) + rest).frames) == [Parsed(c)] + Results(Cut(rest).frames)
    ensures Cut(WireText(c) + rest).rest == Cut(rest).rest
  {
    FrameBack(c, rest);
    CleanReadsBack(c);
    ResultsOfThen(Frame(Body(c), "\n\n"), Cut(rest), Cut(WireText(c) + rest), EventOf(Body(c)));
  }

  lemma ResultsOfThen(f: Frame, later: Cutting, all: Cutting, r: ParseResult)
    requires all == Then([f], later) && Results([f]) == [r]
    ensures Results(all.frames) == [r] + Results(later.frames)
    ensures all.rest == later.rest
  {
    ResultsAppend([f], later.frames);
  }

  /** "\n" is never followed by "\r". */
  predicate NoLfCr(s: string) {
    forall i | 0 <= i < |s| - 1 && s[i] == '\n' :: s[i + 1] != '\r'
  }

  lemma {:induction false} WireHasNoLfCr(chunks: seq<SseChunk>)
    requires forall c | c in chunks :: Clean(c)
    ensures NoLfCr(WireAll(chunks)) && (WireAll(chunks) != "" ==> WireAll(chunks)[0] != '\r')
  {
    if chunks != [] {
      var c, rest := chunks[0], WireAll(chunks[1..]);
      assert Clean(c);
      WireHasNoLfCr(chunks[1..]);
      WireTextThen(c, rest);
    }
  }

  lemma WireTextThen(c: SseChunk, rest: string)
    requires Clean(c) && NoLfCr(rest) && (rest != "" ==> rest[0] != '\r')
    ensures NoLfCr(WireText(c) + rest) && (WireText(c) + rest)[0] != '\r'
  {
    var body := Body(c);
    HeadersSolid(c, "data: " + c.data);
    assert WireText(c) + rest == body + "\n\n" + rest;
    SolidThen(body, rest);
  }

  lemma SolidThen(body: string, rest: string)
    requires Solid(body) && NoLfCr(rest) && (rest != "" ==> rest[0] != '\r')
    ensures NoLfCr(body + "\n\n" + rest) && (body + "\n\n" + rest)[0] != '\r'
  {
    var s := body + "\n\n" + rest;
    forall i | 0 <= i < |s| - 1 && s[i] == '\n'
      ensures s[i + 1] != '\r'
    {
      if i < |body| {
        assert s[i] == body[i] && s[i + 1] == body[i + 1];
      } else if i > |body| {
        assert s[i + 1] == rest[i - |body| - 1];
      }
    }
  }

  /** Parsing what was printed returns the same list, however the text is cut on the way. */
  lemma RoundTrip(chunks: seq<SseChunk>, segments: seq<string>)
    requires forall c | c in chunks :: Clean(c)
    requires Concat(segments) == WireAll(chunks)
    ensures StreamResults(segments) == ParsedAll(chunks)
  {
    var s := WireAll(chunks);
    WireHasNoLfCr(chunks);
    assert Ordered(s) by {
      assert forall p: nat :: !CrLfAt(s, p);
    }
    SegmentationExact(s);
    WireCut(chunks);
  }

  // ---- Nothing else survives ----------------------------------------------------------------

  lemma {:induction false} LinesHaveNoLf(s: string)
    ensures forall line | line in Lines(s) :: '\n' !in line
    decreases |s|
  {
    if s != "" && IndexOf(s, '\n').Some? {
      LinesHaveNoLf(s[IndexOf(s, '\n').value + 1..]);
    }
  }

  lemma {:induction false} ValuesHaveNoLf(lines: seq<string>, name: string)
    requires forall line | line in lines :: '\n' !in line
    ensures forall v | v in Values(lines, name) :: '\n' !in v
  {
    if lines != [] {
      assert lines[0] in lines;
      ValuesHaveNoLf(lines[1..], name);
    }
  }

  lemma HeadersComeBackOnOneLine(frame: string)
    ensures EventOf(frame).Parsed? ==> OneLine(EventOf(frame).chunk.event) && OneLine(EventOf(frame).chunk.id)
  {
    LinesHaveNoLf(frame);
    ValuesHaveNoLf(Lines(frame), "event");
    ValuesHaveNoLf(Lines(frame), "id");
  }

  /** The data values of a text, joined. */
  function DataText(s: string): string {
    Join(Values(Lines(s), "data"), "\n")
  }

  lemma JoinCons(first: seq<string>, more: seq<string>)
    requires |first| <= 1
    ensures |Join(first + more, "\n")| ==
            (if first == [] then 0 else |first[0]|) + |Join(more, "\n")| + (if first != [] && more != [] then 1 else 0)
  {
    if first == [] {
      assert first + more == more;
    } else {
      assert first + more == [first[0]] + more;
      assert (first + more)[1..] == more;
    }
  }

  /** The first line's data, then the data of the remaining lines. */
  lemma DataCons(line: string, rest: string)
    requires '\n' !in line
    ensures
      var first, more := Values([StripCr(line)], "data"), Values(Lines(rest), "data");
      && |first| <= 1
      && Values(Lines(line + "\n" + rest), "data") == first + more
      && |DataText(line + "\n" + rest)| ==
         (if first == [] then 0 else |first[0]|) + |DataText(rest)| + (if first != [] && more != [] then 1 else 0)
  {
    LinesCons(line, rest);
    ValuesConcat([StripCr(line)], Lines(rest), "data");
    assert [StripCr(line)][1..] == [];
    JoinCons(Values([StripCr(line)], "data"), Values(Lines(rest), "data"));
  }

  lemma LineDataBound(line: string)
    ensures |Values([line], "data")| <= 1
    ensures Values([line], "data") != [] ==> |Values([line], "data")[0]| + 4 <= |line|
  {
    assert [line][1..] == [];
    assert |"data"| == 4;
  }

  /** The data read from any text is at least four characters shorter than the text. */
  lemma {:induction false} DataBound(s: string)
    ensures Values(Lines(s), "data") != [] ==> |DataText(s)| + 4 <= |s|
    decreases |s|
  {
    if s != "" {
      match IndexOf(s, '\n')
      case None =>
        LineDataBound(s);
      case Some(i) =>
        var line, rest := s[..i], s[i + 1..];
        assert s == line + "\n" + rest;
        DataBound(rest);
        DataCons(line, rest);
        LineDataBound(StripCr(line));
    }
  }

  /** Data with a line feed in it comes back shorter. */
  lemma DataShrinks(data: string)
    ensures |DataText("data: " + data)| <= |data|
    ensures '\n' in data ==> |DataText("data: " + data)| < |data|
  {
    match IndexOf(data, '\n')
    case None =>
      DataLine(data, "data");
    case Some(i) =>
      assert data == data[..i] + "\n" + data[i + 1..];
      TwoLinesShrink(data[..i], data[i + 1..]);
  }

  lemma TwoLinesShrink(head: string, rest: string)
    requires '\n' !in head
    ensures |DataText("data: " + (head + "\n" + rest))| <= |head| + |rest|
  {
    hide Lines, Values, FieldOf;
    var line := "data" + ": " + head;
    FieldBack("data", head);
    LineValues("data", head, "data");
    Assoc("data: ", head + "\n", rest);
    Assoc("data: ", head, "\n");
    assert "data" + ": " == "data: ";
    DataCons(line, rest);
    DataBound(rest);
  }

  /** When the headers have no line feed, the first frame starts with them and a prefix of the data. */
  lemma FirstFrame(c: SseChunk, rest: string) returns (k: nat)
    requires OneLine(c.event) && OneLine(c.id)
    ensures
      var frames := Cut(WireText(c) + rest).frames;
      k <= |c.data| && frames != [] && frames[0].body == Headers(c) + ("data: " + c.data[..k])
  {
    hide Cut, Headers, Solid, LfAt;
    var s, h := WireText(c) + rest, Headers(c) + "data: ";
    DataIsSolid();
    HeadersSolid(c, "data: ");
    k := LfInData(h, c.data, rest, s);
    var p := |h| + k;
    Assoc(Headers(c), "data: ", c.data[..k]);
    CutFirst(s, p, 2, s[p + 2..]);
  }

  lemma DataIsSolid()
    ensures Solid("data: ")
  {
  }

  /** Behind solid text the first blank line lies in the data or right behind it. */
  lemma LfInData(h: string, data: string, rest: string, s: string) returns (k: nat)
    requires Solid(h) && s == h + data + "\n\n" + rest
    ensures k <= |data| && NextSep(s) == Some((|h| + k, 2)) && |h| + k + 2 <= |s| && s[..|h| + k] == h + data[..k]
  {
    assert LfAt(s, |h| + |data|);
    var p := FindLf(s, 0).value;
    assert forall i | 0 <= i < |h| :: s[i] == h[i];
    k := p - |h|;
    assert s[..p] == h + data[..k];
  }

  lemma {:induction false} ResultsSource(frames: seq<Frame>, r: ParseResult)
    requires r in Results(frames)
    ensures exists f | f in frames :: r == EventOf(f.body)
  {
    if Trim(frames[0].body) == "" || r != EventOf(frames[0].body) {
      ResultsSource(frames[1..], r);
    }
  }

  /** A list of chunks survives the trip through one buffer exactly when all of them are `Clean`. */
  lemma RoundTripExact(chunks: seq<SseChunk>)
    ensures StreamResults([WireAll(chunks)]) == ParsedAll(chunks) <==> forall c | c in chunks :: Clean(c)
  {
    var s := WireAll(chunks);
    FeedOne("", s);
    assert "" + s == s;
    if forall c | c in chunks :: Clean(c) {
      assert Concat([s]) == s;
      RoundTrip(chunks, [s]);
    } else if StreamResults([s]) == ParsedAll(chunks) {
      SurvivorsOnOneLine(chunks);
      SurvivorsAreClean(chunks);
    }
  }

  ghost predicate Survive(chunks: seq<SseChunk>) {
    var all := Cut(WireAll(chunks));
    Results(all.frames) + FlushResults(all.rest) == ParsedAll(chunks)
  }

  lemma {:induction false} ParsedAllHas(chunks: seq<SseChunk>, c: SseChunk)
    requires c in chunks
    ensures Parsed(c) in ParsedAll(chunks)
  {
    if c != chunks[0] { ParsedAllHas(chunks[1..], c); }
  }

  lemma SurvivorsOnOneLine(chunks: seq<SseChunk>)
    requires Survive(chunks)
    ensures forall c | c in chunks :: OneLine(c.event) && OneLine(c.id)
  {
    var all := Cut(WireAll(chunks));
    forall c | c in chunks
      ensures OneLine(c.event) && OneLine(c.id)
    {
      ParsedAllHas(chunks, c);
      ResultsOnOneLine(all.frames, all.rest, c);
    }
  }

  lemma {:induction false} SurvivorsAreClean(chunks: seq<SseChunk>)
    requires Survive(chunks)
    requires forall c | c in chunks :: OneLine(c.event) && OneLine(c.id)
    ensures forall c | c in chunks :: Clean(c)
  {
    if chunks != [] {
      var c, more := chunks[0], chunks[1..];
      FirstIsClean(c, more);
      OneChunkCut(c, WireAll(more));
      TailSurvives(Results(Cut(WireAll(more)).frames), FlushResults(Cut(WireAll(more)).rest),
                   Parsed(c), ParsedAll(more));
      SurvivorsAreClean(more);
    }
  }

  lemma TailSurvives(a: seq<ParseResult>, b: seq<ParseResult>, r: ParseResult, all: seq<ParseResult>)
    requires ([r] + a) + b == [r] + all
    ensures a + b == all
  {
    assert (([r] + a) + b)[1..] == a + b;
    assert ([r] + all)[1..] == all;
  }

  lemma FirstIsClean(c: SseChunk, more: seq<SseChunk>)
    requires OneLine(c.event) && OneLine(c.id) && Survive([c] + more)
    ensures Clean(c)
  {
    assert WireAll([c] + more) == WireText(c) + WireAll(more) by { assert ([c] + more)[1..] == more; }
    assert ParsedAll([c] + more) == [Parsed(c)] + ParsedAll(more) by { assert ([c] + more)[1..] == more; }
    var k := FirstEvent(c, WireAll(more));
    var all := Cut(WireText(c) + WireAll(more));
    HeadOfAll(Results(all.frames), FlushResults(all.rest), Parsed(c), ParsedAll(more));
    DataIsClean(c, k);
  }

  lemma HeadOfAll(a: seq<ParseResult>, b: seq<ParseResult>, r: ParseResult, more: seq<ParseResult>)
    requires a + b == [r] + more && a != []
    ensures a[0] == r
  {
    assert (a + b)[0] == a[0];
  }

  lemma DataIsClean(c: SseChunk, k: nat)
    requires OneLine(c.event) && OneLine(c.id) && k <= |c.data|
    requires EventOf(Headers(c) + ("data: " + c.data[..k])) == Parsed(c)
    ensures Clean(c)
  {
    DataSurvives(c, k);
    CleanReadsBack(c);
  }

  lemma FirstEvent(c: SseChunk, rest: string) returns (k: nat)
    requires OneLine(c.event) && OneLine(c.id)
    ensures k <= |c.data| && Results(Cut(WireText(c) + rest).frames) != []
    ensures Results(Cut(WireText(c) + rest).frames)[0] == EventOf(Headers(c) + ("data: " + c.data[..k]))
  {
    k := FirstFrame(c, rest);
    BodyNotBlank(c, c.data[..k]);
    FirstResult(Cut(WireText(c) + rest).frames);
  }

  lemma FirstResult(frames: seq<Frame>)
    requires frames != [] && Trim(frames[0].body) != ""
    ensures Results(frames) != [] && Results(frames)[0] == EventOf(frames[0].body)
  {
  }

  lemma ResultsOnOneLine(frames: seq<Frame>, rest: string, c: SseChunk)
    requires Parsed(c) in Results(frames) + FlushResults(rest)
    ensures OneLine(c.event) && OneLine(c.id)
  {
    if Parsed(c) in Results(frames) {
      ResultsSource(frames, Parsed(c));
      var f :| f in frames && Parsed(c) == EventOf(f.body);
      HeadersComeBackOnOneLine(f.body);
    } else {
      HeadersComeBackOnOneLine(rest);
    }
  }

  lemma HeadersCarryNoData(c: SseChunk, rest: string)
    requires OneLine(c.event) && OneLine(c.id)
    ensures Values(Lines(Headers(c) + rest), "data") == Values(Lines(rest), "data")
  {
    HeadersValues(c, rest, "data");
    assert |"data"| == 4 && |"event"| == 5 && |"id"| == 2;
  }

  lemma DataSurvives(c: SseChunk, k: nat)
    requires OneLine(c.event) && OneLine(c.id) && k <= |c.data|
    requires EventOf(Headers(c) + ("data: " + c.data[..k])) == Parsed(c)
    ensures k == |c.data| && '\n' !in c.data && c.data[..k] == c.data
  {
    var part := c.data[..k];
    HeadersCarryNoData(c, "data: " + part);
    DataShrinks(part);
  }
}
