/**
  How one frame is read, told from the way its lines are written: which lines give a field, which value they give,
  and what the event is made of.
*/
module SseFields {
  import opened Text
  import opened SseCodec
  import opened SseRoundTrip

  /** A line: a field with or without a space behind the colon, a bare name, a comment, or nothing. */
  datatype Line = Spaced(name: string, value: string) | Tight(name: string, value: string) | Bare(name: string) |
                  Comment(text: string) | Empty

  function Written(l: Line): string {
    match l
    case Spaced(name, value) => name + ": " + value
    case Tight(name, value) => name + ":" + value
    case Bare(name) => name
    case Comment(text) => ":" + text
    case Empty => ""
  }

  /** No line feed inside; a value directly behind its colon does not begin with a space. */
  predicate Proper(l: Line) {
    && '\n' !in Written(l)
    && match l
       case Spaced(name, _) => name != "" && ':' !in name
       case Tight(name, value) => name != "" && ':' !in name && (value != "" ==> value[0] != ' ')
       case Bare(name) => name != "" && ':' !in name
       case _ => true
  }

  /** The line gives a value to the field `name`. */
  predicate Names(l: Line, name: string) {
    (l.Spaced? || l.Tight? || l.Bare?) && l.name == name
  }

  /** The value given; a bare name gives the empty one. */
  function Given(l: Line): string {
    if l.Spaced? || l.Tight? then l.value else ""
  }

  /** The lines with their ends: a carriage return before the line feed or none. */
  function Terminated(lines: seq<Line>, crlf: seq<bool>): string
    requires |crlf| == |lines|
  {
    if lines == [] then ""
    else Written(lines[0]) + (if crlf[0] then "\r\n" else "\n") + Terminated(lines[1..], crlf[1..])
  }

  /** Proper lines, none of them taking a carriage return for its own that belongs to its end. */
  predicate Sheet(lines: seq<Line>, crlf: seq<bool>, last: Line) {
    && |crlf| == |lines| && Proper(last)
    && forall i | 0 <= i < |lines| :: Proper(lines[i]) && (crlf[i] || StripCr(Written(lines[i])) == Written(lines[i]))
  }

  /** All values given to a field. */
  function AllGiven(lines: seq<Line>, name: string): seq<string> {
    if lines == [] then []
    else (if Names(lines[0], name) then [Given(lines[0])] else []) + AllGiven(lines[1..], name)
  }

  /** The value is the one given last, if any was. */
  ghost predicate LastGiven(lines: seq<Line>, name: string, value: Option<string>) {
    match value
    case None => forall i | 0 <= i < |lines| :: !Names(lines[i], name)
    case Some(v) =>
      exists i | 0 <= i < |lines| ::
        Names(lines[i], name) && Given(lines[i]) == v && forall j | i < j < |lines| :: !Names(lines[j], name)
  }

  /** Event and id are the last ones given, the data are joined by line feeds; without data there is no event. */
  ghost predicate Tells(lines: seq<Line>, r: ParseResult) {
    match r
    case DataMissing => forall i | 0 <= i < |lines| :: !Names(lines[i], "data")
    case Parsed(chunk) =>
      && (exists i | 0 <= i < |lines| :: Names(lines[i], "data"))
      && chunk.data == Join(AllGiven(lines, "data"), "\n")
      && LastGiven(lines, "event", chunk.event) && LastGiven(lines, "id", chunk.id)
  }

  // ---- One line -----------------------------------------------------------------------------

  lemma ColonAfter(name: string, rest: string)
    requires name != "" && ':' !in name
    ensures
      var line := name + ":" + rest;
      line != "" && line[0] != ':' && IndexOf(line, ':') == Some(|name|) && line[..|name|] == name &&
      line[|name| + 1..] == rest
  {
    IndexAfter(name, ':', rest);
    var line := name + ":" + rest;
    assert line[0] == name[0] && name[0] in name;
  }

  lemma NoColon(name: string)
    requires ':' !in name
    ensures IndexOf(name, ':').None?
  {
  }

  lemma LineGives(l: Line)
    requires Proper(l)
    ensures
      FieldOf(Written(l)) ==
      if l.Spaced? || l.Tight? || l.Bare? then Some(Field(l.name, Given(l))) else None
  {
    match l {
      case Spaced(name, value) =>
        assert name + ": " + value == name + ":" + (" " + value);
        ColonAfter(name, " " + value);
        assert (" " + value)[1..] == value;
      case Tight(name, value) => ColonAfter(name, value);
      case Bare(name) =>
        NoColon(name);
        assert name[0] in name;
      case _ =>
    }
  }

  lemma ValuesOfOne(l: Line, rest: seq<string>, name: string)
    requires Proper(l)
    ensures Values([Written(l)] + rest, name) == AllGiven([l], name) + Values(rest, name)
  {
    LineGives(l);
    assert ([Written(l)] + rest)[1..] == rest && [l][1..] == [];
    assert AllGiven([], name) == [];
  }

  // ---- All lines ----------------------------------------------------------------------------

  lemma GivenCons(l: Line, rest: seq<Line>, name: string)
    ensures AllGiven([l] + rest, name) == AllGiven([l], name) + AllGiven(rest, name)
  {
    assert ([l] + rest)[1..] == rest && [l][1..] == [];
  }

  lemma StripEnd(line: string)
    ensures StripCr(line + "\r") == line
  {
  }

  lemma FirstLineRead(l: Line, crlf: bool, rest: string)
    requires Proper(l) && (crlf || StripCr(Written(l)) == Written(l))
    ensures Lines(Written(l) + (if crlf then "\r\n" else "\n") + rest) == [Written(l)] + Lines(rest)
  {
    var line := Written(l);
    if crlf {
      StripEnd(line);
      assert line + "\r\n" + rest == (line + "\r") + "\n" + rest;
      LinesCons(line + "\r", rest);
    } else {
      LinesCons(line, rest);
    }
  }

  lemma LastLineRead(last: Line, name: string)
    requires Proper(last)
    ensures Values(Lines(Written(last)), name) == AllGiven([last], name)
  {
    ValuesOfOne(last, [], name);
    if Written(last) != "" {
      LinesOne(Written(last));
      assert [Written(last)] + [] == [Written(last)];
    }
  }

  lemma {:induction false} SheetGives(lines: seq<Line>, crlf: seq<bool>, last: Line, name: string)
    requires Sheet(lines, crlf, last)
    ensures Values(Lines(Terminated(lines, crlf) + Written(last)), name) == AllGiven(lines + [last], name)
    decreases |lines|
  {
    hide Written, Proper, Values, Lines, AllGiven;
    if lines == [] {
      LastLineRead(last, name);
      assert "" + Written(last) == Written(last) && lines + [last] == [last];
    } else {
      var l, end, more := lines[0], if crlf[0] then "\r\n" else "\n", Terminated(lines[1..], crlf[1..]);
      SheetGives(lines[1..], crlf[1..], last, name);
      Assoc(Written(l) + end, more, Written(last));
      FirstLineRead(l, crlf[0], more + Written(last));
      ValuesOfOne(l, Lines(more + Written(last)), name);
      GivenCons(l, lines[1..] + [last], name);
      assert lines + [last] == [l] + (lines[1..] + [last]);
    }
  }

  lemma GivenLater(first: Line, more: seq<Line>, name: string, v: string)
    requires LastGiven(more, name, Some(v))
    ensures LastGiven([first] + more, name, Some(v))
  {
    var all := [first] + more;
    var i :| 0 <= i < |more| && Names(more[i], name) && Given(more[i]) == v &&
             forall j | i < j < |more| :: !Names(more[j], name);
    assert Names(all[i + 1], name) && Given(all[i + 1]) == v;
    assert forall j | i + 1 < j < |all| :: all[j] == more[j - 1];
  }

  lemma NotGivenLater(first: Line, more: seq<Line>, name: string)
    requires LastGiven(more, name, None)
    ensures LastGiven([first] + more, name, if Names(first, name) then Some(Given(first)) else None)
  {
    var all := [first] + more;
    assert all[0] == first && forall j | 0 < j < |all| :: all[j] == more[j - 1];
  }

  lemma {:induction false} LastIsLastGiven(lines: seq<Line>, name: string)
    ensures LastGiven(lines, name, Last(AllGiven(lines, name)))
  {
    hide Names, Given, LastGiven;
    if lines == [] {
      NothingGiven(name);
    } else {
      var first, more := lines[0], lines[1..];
      assert lines == [first] + more;
      LastIsLastGiven(more, name);
      if AllGiven(more, name) == [] {
        NotGivenLater(first, more, name);
      } else {
        GivenLater(first, more, name, Last(AllGiven(more, name)).value);
      }
    }
  }

  lemma NothingGiven(name: string)
    ensures LastGiven([], name, None)
  {
  }

  lemma NotGiven(lines: seq<Line>, name: string)
    ensures AllGiven(lines, name) == [] <==> forall i | 0 <= i < |lines| :: !Names(lines[i], name)
  {
    LastIsLastGiven(lines, name);
  }

  /** The event of a frame, from the way its lines are written. */
  lemma FrameTells(lines: seq<Line>, crlf: seq<bool>, last: Line)
    requires Sheet(lines, crlf, last)
    ensures Tells(lines + [last], EventOf(Terminated(lines, crlf) + Written(last)))
  {
    hide Lines, Values, AllGiven, Last, Sheet, LastGiven, Terminated, Written;
    SheetGives(lines, crlf, last, "data");
    SheetGives(lines, crlf, last, "event");
    SheetGives(lines, crlf, last, "id");
    NotGiven(lines + [last], "data");
    LastIsLastGiven(lines + [last], "event");
    LastIsLastGiven(lines + [last], "id");
  }

  // ---- Every frame --------------------------------------------------------------------------

  lemma ReadLine(line: string) returns (l: Line)
    requires '\n' !in line
    ensures Proper(l) && Written(l) == line
  {
    if line == "" {
      l := Empty;
    } else if line[0] == ':' {
      l := Comment(line[1..]);
      assert ":" + line[1..] == line;
    } else {
      var colon := IndexOf(line, ':');
      if colon.None? {
        l := Bare(line);
      } else {
        var name, value := line[..colon.value], line[colon.value + 1..];
        assert line == name + ":" + value;
        assert ':' !in name && name != "";
        if value != "" && value[0] == ' ' {
          l := Spaced(name, value[1..]);
          assert name + ": " + value[1..] == line;
        } else {
          l := Tight(name, value);
        }
      }
    }
  }

  /** Every frame is written in this way, so that nothing is left out. */
  lemma {:induction false} EveryFrame(frame: string) returns (lines: seq<Line>, crlf: seq<bool>, last: Line)
    ensures Sheet(lines, crlf, last) && Terminated(lines, crlf) + Written(last) == frame
    decreases |frame|
  {
    var p := IndexOf(frame, '\n');
    if p.None? {
      lines, crlf := [], [];
      last := ReadLine(frame);
      assert "" + frame == frame;
    } else {
      var line, rest := frame[..p.value], frame[p.value + 1..];
      var withCr := StripCr(line) != line;
      assert line == StripCr(line) + if withCr then "\r" else "";
      assert frame == StripCr(line) + (if withCr then "\r\n" else "\n") + rest;
      var l := ReadLine(StripCr(line));
      var more, ends;
      more, ends, last := EveryFrame(rest);
      lines, crlf := [l] + more, [withCr] + ends;
      OneLineMore(l, withCr, more, ends, last);
    }
  }

  lemma OneLineMore(l: Line, withCr: bool, more: seq<Line>, ends: seq<bool>, last: Line)
    requires Proper(l) && (withCr || StripCr(Written(l)) == Written(l)) && Sheet(more, ends, last)
    ensures Sheet([l] + more, [withCr] + ends, last)
    ensures
      Terminated([l] + more, [withCr] + ends) + Written(last) ==
      Written(l) + (if withCr then "\r\n" else "\n") + (Terminated(more, ends) + Written(last))
  {
    var lines, crlf := [l] + more, [withCr] + ends;
    hide Written, Proper;
    assert lines[1..] == more && crlf[1..] == ends;
    assert forall i | 1 <= i < |lines| :: lines[i] == more[i - 1] && crlf[i] == ends[i - 1];
    Assoc(Written(l) + if withCr then "\r\n" else "\n", Terminated(more, ends), Written(last));
  }
}
