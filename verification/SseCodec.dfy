/**
  The buffered event-stream parser and its printer.

  The stream is cut into frames at blank lines; a frame is read field by field.  `Cut`, `EventOf` and
  `WireText` say on values what the parser's methods do to their buffer.
*/
module SseCodec {
  import opened Text

  datatype SseChunk = SseChunk(event: Option<string>, data: string, id: Option<string>)

  datatype ParseResult = Parsed(chunk: SseChunk) | DataMissing

  /** A piece of the stream and the separator that ended it. */
  datatype Frame = Frame(body: string, sep: string)

  /** What a stretch of input is cut into: the complete frames and the unfinished rest. */
  datatype Cutting = Cutting(frames: seq<Frame>, rest: string)

  // ---- Separators ---------------------------------------------------------------------------

  predicate CrLfAt(s: string, i: nat) {
    i + 4 <= |s| && s[i] == '\r' && s[i + 1] == '\n' && s[i + 2] == '\r' && s[i + 3] == '\n'
  }

  function FindCrLf(s: string, from: nat): (r: Option<nat>)
    ensures r.Some? ==> from <= r.value && CrLfAt(s, r.value) && forall i | from <= i < r.value :: !CrLfAt(s, i)
    ensures r.None? ==> forall i | from <= i :: !CrLfAt(s, i)
    decreases |s| - from
  {
    if from >= |s| then None else if CrLfAt(s, from) then Some(from) else FindCrLf(s, from + 1)
  }

  /** The separator search: the first "\n\n" anywhere wins over every "\r\n\r\n". */
  function NextSep(s: string): (r: Option<(nat, nat)>)
    ensures r.Some? ==> r.value.1 > 0 && r.value.0 + r.value.1 <= |s|
  {
    match FindLf(s, 0)
    case Some(p) => Some((p, 2))
    case None =>
      match FindCrLf(s, 0)
      case Some(p) => Some((p, 4))
      case None => None
  }

  function Cut(s: string): Cutting
    decreases |s|
  {
    match NextSep(s)
    case None => Cutting([], s)
    case Some((p, n)) =>
      var later := Cut(s[p + n..]);
      Cutting([Frame(s[..p], s[p..p + n])] + later.frames, later.rest)
  }

  /** The input that a list of frames came from. */
  function Uncut(frames: seq<Frame>): string {
    if frames == [] then "" else frames[0].body + frames[0].sep + Uncut(frames[1..])
  }

  // ---- One frame ----------------------------------------------------------------------------

  function IndexOf(s: string, c: char): (r: Option<nat>)
    ensures r.Some? ==> r.value < |s| && s[r.value] == c && forall k | 0 <= k < r.value :: s[k] != c
    ensures r.None? ==> c !in s
  {
    if s == "" then None
    else if s[0] == c then Some(0)
    else
      match IndexOf(s[1..], c)
      case None => None
      case Some(i) => Some(i + 1)
  }

  /** A line that was ended by "\n" also loses one "\r" before it. */
  function StripCr(line: string): string {
    if line != "" && line[|line| - 1] == '\r' then line[..|line| - 1] else line
  }

  /** `str::lines`: the last line needs no terminator, and then keeps a trailing "\r". */
  function Lines(s: string): seq<string>
    decreases |s|
  {
    if s == "" then []
    else
      match IndexOf(s, '\n')
      case None => [s]
      case Some(i) => [StripCr(s[..i])] + Lines(s[i + 1..])
  }

  datatype Field = Field(name: string, value: string)

  /** The field on one line; comments and empty lines hold none. */
  function FieldOf(line: string): Option<Field> {
    if line == "" || line[0] == ':' then None
    else
      match IndexOf(line, ':')
      case None => Some(Field(line, ""))
      case Some(i) =>
        var v := line[i + 1..];
        Some(Field(line[..i], if v != "" && v[0] == ' ' then v[1..] else v))
  }

  /** All values given to a field, in order. */
  function Values(lines: seq<string>, name: string): seq<string> {
    if lines == [] then []
    else
      var f := FieldOf(lines[0]);
      (if f.Some? && f.value.name == name then [f.value.value] else []) + Values(lines[1..], name)
  }

  function Last(values: seq<string>): Option<string> {
    if values == [] then None else Some(values[|values| - 1])
  }

  /** A frame's event: `event` and `id` keep their last value, the `data` values are joined by line feeds. */
  function EventOf(frame: string): ParseResult {
    var lines := Lines(frame);
    var data := Values(lines, "data");
    if data == [] then DataMissing
    else Parsed(SseChunk(Last(Values(lines, "event")), Join(data, "\n"), Last(Values(lines, "id"))))
  }

  /** What the frames of a cutting yield; blank ones yield nothing. */
  function Results(frames: seq<Frame>): seq<ParseResult> {
    if frames == [] then []
    else (if Trim(frames[0].body) == "" then [] else [EventOf(frames[0].body)]) + Results(frames[1..])
  }

  function FlushResults(rest: string): seq<ParseResult> {
    if Trim(rest) == "" then [] else [EventOf(rest)]
  }

  // ---- The parser object --------------------------------------------------------------------

  lemma {:induction false} ValuesAppend(lines: seq<string>, line: string, name: string)
    ensures Values(lines + [line], name) == Values(lines, name) + Values([line], name)
  {
    if lines == [] {
      assert lines + [line] == [line];
    } else {
      assert (lines + [line])[1..] == lines[1..] + [line];
      ValuesAppend(lines[1..], line, name);
    }
  }

  /** Reads the field of one line; `None` for a comment or an empty line. */
  method SplitField(line: string) returns (f: Option<Field>)
    ensures f == FieldOf(line)
  {
    if line == "" || line[0] == ':' {
      return None;
    }
    var field, value := line, "";
    var colon := IndexOf(line, ':');
    if colon.Some? {
      field, value := line[..colon.value], line[colon.value + 1..];
      if value != "" && value[0] == ' ' {
        value := value[1..];
      }
    }
    return Some(Field(field, value));
  }

  /** `event`, `data` and `id` are what has been read from `lines`. */
  predicate Read(lines: seq<string>, event: Option<string>, data: seq<string>, id: Option<string>) {
    event == Last(Values(lines, "event")) && data == Values(lines, "data") && id == Last(Values(lines, "id"))
  }

  lemma ReadOne(lines: seq<string>, line: string, event: Option<string>, data: seq<string>, id: Option<string>)
    requires Read(lines, event, data, id)
    ensures
      var f := FieldOf(line);
      Read(lines + [line],
           if f.Some? && f.value.name == "event" then Some(f.value.value) else event,
           if f.Some? && f.value.name == "data" then data + [f.value.value] else data,
           if f.Some? && f.value.name == "id" then Some(f.value.value) else id)
  {
    ValuesAppend(lines, line, "event");
    ValuesAppend(lines, line, "data");
    ValuesAppend(lines, line, "id");
  }

  /** Files the field of one more line under its name; unknown names are ignored. */
  method TakeField(ghost before: seq<string>, line: string, event: Option<string>, data: seq<string>,
                   id: Option<string>)
    returns (event': Option<string>, data': seq<string>, id': Option<string>)
    requires Read(before, event, data, id)
    ensures Read(before + [line], event', data', id')
  {
    ReadOne(before, line, event, data, id);
    event', data', id' := event, data, id;
    var f := SplitField(line);
    if f.Some? {
      match f.value.name {
        case "data" => data' := data + [f.value.value];
        case "event" => event' := Some(f.value.value);
        case "id" => id' := Some(f.value.value);
        case _ =>
      }
    }
  }

  method ReadLines(lines: seq<string>) returns (event: Option<string>, data: seq<string>, id: Option<string>)
    ensures Read(lines, event, data, id)
  {
    event, data, id := None, [], None;
    var i := 0;
    while i < |lines|
      invariant 0 <= i <= |lines|
      invariant Read(lines[..i], event, data, id)
    {
      ghost var before := lines[..i];
      event, data, id := TakeField(before, lines[i], event, data, id);
      assert lines[..i + 1] == before + [lines[i]];
      i := i + 1;
    }
    assert lines[..|lines|] == lines;
  }

  method ParseEvent(frame: string) returns (r: ParseResult)
    ensures r == EventOf(frame)
  {
    var event, data, id := ReadLines(Lines(frame));
    if data == [] {
      return DataMissing;
    }
    r := Parsed(SseChunk(event, Join(data, "\n"), id));
  }

  lemma {:induction false} ResultsAppend(a: seq<Frame>, b: seq<Frame>)
    ensures Results(a + b) == Results(a) + Results(b)
  {
    hide Trim, EventOf;
    if a == [] {
      assert a + b == b;
    } else {
      assert (a + b)[1..] == a[1..] + b;
      ResultsAppend(a[1..], b);
    }
  }

  lemma {:induction false} UncutAppend(a: seq<Frame>, b: seq<Frame>)
    ensures Uncut(a + b) == Uncut(a) + Uncut(b)
  {
    if a == [] {
      assert a + b == b;
    } else {
      assert (a + b)[1..] == a[1..] + b;
      UncutAppend(a[1..], b);
    }
  }

  /** Cutting loses nothing, and leaves no separator behind. */
  lemma {:induction false} CutConserves(s: string)
    ensures Uncut(Cut(s).frames) + Cut(s).rest == s
    ensures NextSep(Cut(s).rest).None?
    decreases |s|
  {
    match NextSep(s)
    case None =>
    case Some((p, n)) =>
      var later := Cut(s[p + n..]);
      CutConserves(s[p + n..]);
      UncutCons(Frame(s[..p], s[p..p + n]), later.frames);
      Glue(s, p, n, Uncut(later.frames), later.rest);
  }

  lemma Glue(s: string, p: nat, n: nat, u: string, rest: string)
    requires p + n <= |s| && s[p + n..] == u + rest
    ensures (s[..p] + s[p..p + n] + u) + rest == s
  {
  }

  lemma UncutCons(first: Frame, more: seq<Frame>)
    ensures Uncut([first] + more) == first.body + first.sep + Uncut(more)
  {
    assert ([first] + more)[1..] == more;
  }

  /** Moving one frame from the buffer to the frames taken keeps the input. */
  lemma TakeKeepsInput(consumed: seq<Frame>, cut: Frame, buf: string, left: string)
    requires buf == cut.body + cut.sep + left
    ensures Uncut(consumed + [cut]) + left == Uncut(consumed) + buf
  {
    UncutAppend(consumed, [cut]);
    assert Uncut([cut]) == cut.body + cut.sep;
  }

  /** Moving one frame from the buffer to the frames taken keeps the cutting, and adds that frame's result. */
  lemma TakeKeepsCutting(taken: seq<Frame>, buf: string, pos: nat, len: nat)
    requires NextSep(buf) == Some((pos, len))
    ensures
      var cut := Frame(buf[..pos], buf[pos..pos + len]);
      var left := buf[pos + len..];
      && buf == cut.body + cut.sep + left
      && taken + Cut(buf).frames == (taken + [cut]) + Cut(left).frames
      && Cut(buf).rest == Cut(left).rest
  {
    CutOnce(buf, pos, len);
    hide Cut, NextSep;
    ThreeParts(buf, pos, pos + len);
    OneTaken(taken, Frame(buf[..pos], buf[pos..pos + len]), Cut(buf[pos + len..]).frames);
  }

  lemma CutOnce(buf: string, pos: nat, len: nat)
    requires NextSep(buf) == Some((pos, len))
    ensures
      var later := Cut(buf[pos + len..]);
      Cut(buf) == Cutting([Frame(buf[..pos], buf[pos..pos + len])] + later.frames, later.rest)
  {
  }

  lemma ThreeParts(s: string, i: nat, j: nat)
    requires i <= j <= |s|
    ensures s == s[..i] + s[i..j] + s[j..]
  {
  }

  lemma OneTaken(taken: seq<Frame>, cut: Frame, more: seq<Frame>)
    ensures taken + ([cut] + more) == (taken + [cut]) + more
  {
  }

  lemma TakenOne(before: seq<Frame>, taken: seq<Frame>, cut: Frame)
    ensures (before + taken) + [cut] == before + (taken + [cut])
  {
  }

  lemma NothingTaken(frames: seq<Frame>)
    ensures [] + frames == frames && Results([]) == []
    ensures forall before: seq<Frame> :: before + [] == before
    ensures forall r: seq<ParseResult> :: r + [] == r
  {
  }

  lemma NothingToCut(buf: string, taken: seq<Frame>)
    requires NextSep(buf).None?
    ensures Cut(buf) == Cutting([], buf) && taken + Cut(buf).frames == taken
  {
  }

  lemma ResultsOne(taken: seq<Frame>, cut: Frame)
    ensures Results(taken + [cut]) == Results(taken) + (if Trim(cut.body) == "" then [] else [EventOf(cut.body)])
  {
    ResultsAppend(taken, [cut]);
    assert Results([cut][1..]) == [];
  }

  class SseChunkParser {
    var buf: string
    /** Everything received, and the frames taken out of it so far. */
    ghost var input: string
    ghost var consumed: seq<Frame>

    ghost predicate Valid()
      reads this
    {
      && Uncut(consumed) + buf == input
      && NextSep(buf).None?
    }

    constructor ()
      ensures Valid() && buf == "" && input == "" && consumed == []
    {
      buf, input, consumed := "", "", [];
    }

    method Parse(text: string) returns (results: seq<ParseResult>)
      requires Valid()
      modifies this
      ensures Valid()
      ensures input == old(input) + text
      ensures buf == Cut(old(buf) + text).rest
      ensures consumed == old(consumed) + Cut(old(buf) + text).frames
      ensures results == Results(Cut(old(buf) + text).frames)
    {
      buf := buf + text;
      input := input + text;
      results := DrainComplete();
    }

    method DrainComplete() returns (results: seq<ParseResult>)
      requires Uncut(consumed) + buf == input
      modifies this
      ensures Valid()
      ensures input == old(input)
      ensures buf == Cut(old(buf)).rest
      ensures consumed == old(consumed) + Cut(old(buf)).frames
      ensures results == Results(Cut(old(buf)).frames)
    {
      hide Cut, Results, Uncut, Trim;
      results := [];
      ghost var taken: seq<Frame> := [];
      NothingTaken(Cut(buf).frames);
      while true
        invariant Uncut(consumed) + buf == input && input == old(input)
        invariant consumed == old(consumed) + taken
        invariant Cut(old(buf)) == Cutting(taken + Cut(buf).frames, Cut(buf).rest)
        invariant results == Results(taken)
        decreases |buf|
      {
        var sep := NextSep(buf);
        if sep.None? {
          NothingToCut(buf, taken);
          break;
        }
        var (pos, len) := sep.value;
        var frame := buf[..pos];
        ghost var cut := Frame(frame, buf[pos..pos + len]);
        TakeKeepsCutting(taken, buf, pos, len);
        TakeKeepsInput(consumed, cut, buf, buf[pos + len..]);
        ResultsOne(taken, cut);
        TakenOne(old(consumed), taken, cut);
        consumed := consumed + [cut];
        taken := taken + [cut];
        buf := buf[pos + len..];
        if Trim(frame) == "" {
          continue;
        }
        var event := ParseEvent(frame);
        results := results + [event];
      }
    }

    method Flush() returns (results: seq<ParseResult>)
      requires Valid()
      modifies this
      ensures Valid()
      ensures buf == "" && input == old(input) && consumed == old(consumed) + [Frame(old(buf), "")]
      ensures results == FlushResults(old(buf))
    {
      var leftover := buf;
      buf := "";
      UncutAppend(consumed, [Frame(leftover, "")]);
      consumed := consumed + [Frame(leftover, "")];
      if Trim(leftover) == "" {
        return [];
      }
      var event := ParseEvent(leftover);
      results := [event];
    }
  }
}
