/** Chat streaming of the runtime adapters: lines in, Delta events and one terminal event out. */
module ChatStream {
  import opened Text
  import opened LineStream

  datatype FinishReason = Stopped | Length | Aborted | Meta | Unknown

  datatype End = Completed(reason: FinishReason) | Cancelled | Failed

  datatype Event = Delta(text: string) | Ended(end: End)

  datatype Outcome = OutcomeCompleted | OutcomeCancelled | OutcomeFailed

  function OutcomeOf(end: End): Outcome {
    match end
    case Completed(_) => OutcomeCompleted
    case Cancelled => OutcomeCancelled
    case Failed => OutcomeFailed
  }

  datatype Connection = CancelledFirst | NoConnection | BadStatus | Open(items: seq<Item>)

  /** What a line says: a piece of text, and whether it is the last line. */
  datatype Reading = Reading(delta: Option<string>, end: Option<End>)

  const NOTHING := Reading(None, None)

  // ---- Ollama -------------------------------------------------------------------------------

  datatype OllamaChunk = OllamaChunk(error: Option<string>, content: Option<string>, done: bool,
                                     doneReason: Option<string>)

  function OllamaReason(reason: Option<string>): FinishReason {
    if reason == Some("stop") then Stopped
    else if reason == Some("length") then Length
    else if reason == Some("load") || reason == Some("unload") then Meta
    else Unknown
  }

  /** A line of JSON; lines that are blank or do not parse are skipped. */
  function ReadOllama(parse: string -> Option<OllamaChunk>, line: string): Reading {
    var trimmed := TrimAscii(line);
    if trimmed == "" then NOTHING
    else match parse(trimmed)
      case None => NOTHING
      case Some(chunk) =>
        if chunk.error.Some? then Reading(None, Some(Failed))
        else
          Reading(if chunk.content.Some? && chunk.content.value != "" then chunk.content else None,
                  if chunk.done then Some(Completed(OllamaReason(chunk.doneReason))) else None)
  }

  // ---- LM Studio and llama.cpp --------------------------------------------------------------

  datatype Choice = Choice(content: Option<string>, finishReason: Option<string>)

  datatype OpenAiChunk = OpenAiChunk(choices: seq<Choice>)

  function OpenAiReason(reason: string): FinishReason {
    if reason == "stop" then Stopped else if reason == "length" then Length else Unknown
  }

  function Payload(line: string): Option<string> {
    var trimmed := TrimAscii(line);
    if trimmed == "" then None
    else match StripPrefix(trimmed, "data: ")
      case Some(p) => Some(TrimAscii(p))
      case None => match StripPrefix(trimmed, "data:")
        case Some(p) => Some(TrimAscii(p))
        case None => None
  }

  /** An SSE data line; only the first choice counts. */
  function ReadOpenAi(parse: string -> Option<OpenAiChunk>, line: string): Reading {
    match Payload(line)
    case None => NOTHING
    case Some(payload) =>
      if payload == "[DONE]" then Reading(None, Some(Completed(Unknown)))
      else match parse(payload)
        case None => NOTHING
        case Some(chunk) =>
          if chunk.choices == [] then NOTHING
          else
            var choice := chunk.choices[0];
            var ended := choice.finishReason;
            Reading(if choice.content.Some? && choice.content.value != "" then choice.content else None,
                    if ended.Some? then Some(Completed(OpenAiReason(ended.value))) else None)
  }

  // ---- What a stream tells ------------------------------------------------------------------

  /** The events of the lines up to the last one that counts, and how that one ends the stream. */
  datatype Script = Script(deltas: seq<Event>, end: Option<End>)

  function DeltaOf(r: Reading): seq<Event> {
    if r.delta.Some? then [Delta(r.delta.value)] else []
  }

  function ScriptOf(read: string -> Reading, lines: seq<string>): Script {
    if lines == [] then Script([], None)
    else
      var r := read(lines[0]);
      if r.end.Some? then Script(DeltaOf(r), r.end) else Before(DeltaOf(r), ScriptOf(read, lines[1..]))
  }

  /** Events put before the rest of the script. */
  function Before(events: seq<Event>, s: Script): Script {
    Script(events + s.deltas, s.end)
  }

  /** A stream that breaks off counts as completed if it has told something. */
  function Ending(s: Script, stop: Stop): End {
    if s.end.Some? then s.end.value
    else match stop
      case Eof => Completed(Aborted)
      case BrokenOff => if s.deltas != [] then Completed(Aborted) else Failed
      case CancelledThen => Cancelled
  }

  /** The events of a whole run, told from the concatenated bytes alone. */
  function Chat(read: string -> Reading, connection: Connection): (seq<Event>, Outcome) {
    match connection
    case CancelledFirst => ([Ended(Cancelled)], OutcomeCancelled)
    case NoConnection => ([Ended(Failed)], OutcomeFailed)
    case BadStatus => ([Ended(Failed)], OutcomeFailed)
    case Open(items) =>
      var script := ScriptOf(read, Lines(BytesOf(items)));
      var end := Ending(script, StopOf(items));
      (script.deltas + [Ended(end)], OutcomeOf(end))
  }

  lemma LineTold(read: string -> Reading, events: seq<Event>, line: string, rest: seq<string>)
    ensures
      var r := read(line);
      Before(events, ScriptOf(read, [line] + rest)) ==
      if r.end.Some? then Script(events + DeltaOf(r), r.end) else Before(events + DeltaOf(r), ScriptOf(read, rest))
    ensures events + [] == events
  {
    assert ([line] + rest)[1..] == rest;
    var r := read(line);
    assert events + (DeltaOf(r) + ScriptOf(read, rest).deltas) == (events + DeltaOf(r)) + ScriptOf(read, rest).deltas;
  }

  lemma NoMoreLines(read: string -> Reading, events: seq<Event>, buffer: string)
    requires '\n' !in buffer
    ensures Before(events, ScriptOf(read, Lines(buffer + ""))) == Script(events, None)
  {
    assert buffer + "" == buffer && events + [] == events;
  }

  /** Takes the complete lines out of the buffer, until one of them ends the stream; `rest` is what will come. */
  method DrainLines(read: string -> Reading, buffer: string, events: seq<Event>, ghost rest: string)
    returns (buffer': string, events': seq<Event>, end: Option<End>)
    ensures
      var script := Before(events, ScriptOf(read, Lines(buffer + rest)));
      if end.Some? then script == Script(events', end)
      else '\n' !in buffer' && script == Before(events', ScriptOf(read, Lines(buffer' + rest)))
  {
    hide ScriptOf, Lines, Before;
    buffer', events' := buffer, events;
    var pos := Newline(buffer');
    while pos.Some?
      invariant pos == Newline(buffer')
      invariant Before(events', ScriptOf(read, Lines(buffer' + rest))) ==
                Before(events, ScriptOf(read, Lines(buffer + rest)))
      decreases |buffer'|
    {
      var line := buffer'[..pos.value];
      FirstLine(buffer', rest, pos.value);
      buffer' := buffer'[pos.value + 1..];
      LineTold(read, events', line, Lines(buffer' + rest));
      var r := read(line);
      if r.delta.Some? {
        events' := events' + [Delta(r.delta.value)];
      }
      if r.end.Some? {
        return buffer', events', r.end;
      }
      pos := Newline(buffer');
    }
    end := None;
  }

  method Stream(read: string -> Reading, connection: Connection) returns (events: seq<Event>, outcome: Outcome)
    ensures (events, outcome) == Chat(read, connection)
  {
    hide ScriptOf, Lines, BytesOf, StopOf, Before;
    match connection {
      case CancelledFirst => return [Ended(Cancelled)], OutcomeCancelled;
      case NoConnection => return [Ended(Failed)], OutcomeFailed;
      case BadStatus => return [Ended(Failed)], OutcomeFailed;
      case Open(_) =>
    }
    var items := connection.items;
    events := [];
    var buffer := "";
    ghost var script := ScriptOf(read, Lines(BytesOf(items)));
    var i := 0;
    AtFirst(script, items);
    while i < |items|
      invariant 0 <= i <= |items| && '\n' !in buffer
      invariant script == Before(events, ScriptOf(read, Lines(buffer + BytesOf(items[i..]))))
      invariant StopOf(items) == StopOf(items[i..])
    {
      NextBytes(items, i, buffer);
      match items[i] {
        case Bytes(bytes) =>
          var end;
          buffer, events, end := DrainLines(read, buffer + bytes, events, BytesOf(items[i + 1..]));
          if end.Some? {
            return events + [Ended(end.value)], OutcomeOf(end.value);
          }
        case Broken =>
          NoMoreLines(read, events, buffer);
          if events != [] {
            return events + [Ended(Completed(Aborted))], OutcomeCompleted;
          }
          return events + [Ended(Failed)], OutcomeFailed;
        case Cancel =>
          NoMoreLines(read, events, buffer);
          return events + [Ended(Cancelled)], OutcomeCancelled;
      }
      i := i + 1;
    }
    AtEof(items, i);
    NoMoreLines(read, events, buffer);
    events, outcome := events + [Ended(Completed(Aborted))], OutcomeCompleted;
  }

  lemma AtFirst(script: Script, items: seq<Item>)
    ensures Before([], script) == script && items[0..] == items && "" + BytesOf(items) == BytesOf(items)
  {
  }

  lemma AtEof(items: seq<Item>, i: nat)
    requires i == |items|
    ensures BytesOf(items[i..]) == "" && StopOf(items[i..]) == Eof
  {
  }

  // ---- Every run ----------------------------------------------------------------------------

  ghost predicate Readable(read: string -> Reading) {
    forall line :: read(line).delta != Some("") && read(line).end != Some(Cancelled)
  }

  lemma {:induction false} ScriptTexts(read: string -> Reading, lines: seq<string>)
    requires Readable(read)
    ensures
      var script := ScriptOf(read, lines);
      && script.end != Some(Cancelled)
      && forall i | 0 <= i < |script.deltas| :: script.deltas[i].Delta? && script.deltas[i].text != ""
  {
    if lines != [] {
      var r := read(lines[0]);
      if r.end.None? { ScriptTexts(read, lines[1..]); }
    }
  }

  lemma BothReadable(ollama: string -> Option<OllamaChunk>, openAi: string -> Option<OpenAiChunk>)
    ensures Readable(line => ReadOllama(ollama, line)) && Readable(line => ReadOpenAi(openAi, line))
  {
    hide TrimAscii, Payload;
  }

  /**
    Every run emits Delta events, none of them empty, and then exactly one terminal event, which agrees with the
    returned outcome; it is cancelled only if the caller cancelled.
   */
  lemma TraceShape(read: string -> Reading, connection: Connection)
    requires Readable(read)
    ensures
      var (events, outcome) := Chat(read, connection);
      var last := |events| - 1;
      && last >= 0 && events[last].Ended? && outcome == OutcomeOf(events[last].end)
      && (forall i | 0 <= i < last :: events[i].Delta? && events[i].text != "")
      && (outcome == OutcomeCancelled ==>
            connection.CancelledFirst? || (connection.Open? && StopOf(connection.items) == CancelledThen))
  {
    if connection.Open? {
      ScriptTexts(read, Lines(BytesOf(connection.items)));
      hide ScriptOf, Lines, BytesOf, StopOf;
    }
  }

  /**
    When the transport fails before the answer has ended, the run is completed (aborted) if and only if some text
    had been told, and failed otherwise.
   */
  lemma BrokenStream(read: string -> Reading, items: seq<Item>)
    requires StopOf(items) == BrokenOff && ScriptOf(read, Lines(BytesOf(items))).end.None?
    ensures
      var (events, outcome) := Chat(read, Open(items));
      var last := |events| - 1;
      && (last > 0 <==> events[last] == Ended(Completed(Aborted)))
      && (last == 0 <==> events[last] == Ended(Failed) && outcome == OutcomeFailed)
      && last == |ScriptOf(read, Lines(BytesOf(items))).deltas|
  {
    hide ScriptOf, Lines, BytesOf, StopOf;
  }

  /** However the network cuts the bytes, the events are the same. */
  lemma {:induction false} CutsDoNotMatter(read: string -> Reading, pieces: seq<string>)
    ensures Chat(read, Open(Pieces(pieces))) == Chat(read, Open([Bytes(Concat(pieces))]))
  {
    PiecesBytes(pieces);
    var one := [Bytes(Concat(pieces))];
    assert one[1..] == [] && Concat(pieces) + "" == Concat(pieces);
    assert BytesOf(one) == Concat(pieces) && StopOf(one) == Eof;
  }

  function Pieces(pieces: seq<string>): seq<Item> {
    if pieces == [] then [] else [Bytes(pieces[0])] + Pieces(pieces[1..])
  }

  lemma {:induction false} PiecesBytes(pieces: seq<string>)
    ensures BytesOf(Pieces(pieces)) == Concat(pieces) && StopOf(Pieces(pieces)) == Eof
  {
    if pieces != [] {
      PiecesBytes(pieces[1..]);
      assert Pieces(pieces)[1..] == Pieces(pieces[1..]);
    }
  }

  /** Nothing after the line that ends the answer matters. */
  lemma {:induction false} NothingAfterTheEnd(read: string -> Reading, lines: seq<string>, more: seq<string>)
    requires ScriptOf(read, lines).end.Some?
    ensures ScriptOf(read, lines + more) == ScriptOf(read, lines)
  {
    assert (lines + more)[1..] == lines[1..] + more;
    if read(lines[0]).end.None? {
      NothingAfterTheEnd(read, lines[1..], more);
    }
  }
}
