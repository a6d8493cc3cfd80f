/** What chat streams tell, from how their lines are written, without the functions that read them. */
module ChatRules {
  import opened Text
  import opened LineStream
  import opened ChatStream

  // ---- A whole chat -------------------------------------------------------------------------

  /** The texts told by the lines, as events. */
  function Deltas(read: string -> Reading, lines: seq<string>): seq<Event> {
    if lines == [] then []
    else (if read(lines[0]).delta.Some? then [Delta(read(lines[0]).delta.value)] else []) + Deltas(read, lines[1..])
  }

  lemma {:induction false} ScriptRuns(read: string -> Reading, lines: seq<string>, more: seq<string>)
    requires forall line | line in lines :: read(line).end.None?
    ensures ScriptOf(read, lines + more) == Before(Deltas(read, lines), ScriptOf(read, more))
  {
    if lines == [] {
      assert lines + more == more;
      assert [] + ScriptOf(read, more).deltas == ScriptOf(read, more).deltas;
    } else {
      assert lines[0] in lines && forall x | x in lines[1..] :: x in lines;
      ScriptRuns(read, lines[1..], more);
      Regroup(lines, more);
      LineTold(read, [], lines[0], lines[1..] + more);
      EventsRegroup(DeltaOf(read(lines[0])), Deltas(read, lines[1..]), ScriptOf(read, more).deltas);
    }
  }

  lemma EventsRegroup(a: seq<Event>, b: seq<Event>, c: seq<Event>)
    ensures a + (b + c) == (a + b) + c
  {
  }

  /** A chat that some line ends: the texts up to it, its own included, and the end it gives; no more counts. */
  lemma EndedChat(read: string -> Reading, items: seq<Item>, lines: seq<string>, last: string, rest: string)
    requires BytesOf(items) == Terminated(lines + [last]) + rest
    requires (forall line | line in lines :: OneLine(line) && read(line).end.None?) && OneLine(last)
    requires read(last).end.Some?
    ensures
      var end := read(last).end.value;
      Chat(read, Open(items)) == (Deltas(read, lines + [last]) + [Ended(end)], OutcomeOf(end))
  {
    hide Lines, BytesOf, StopOf, Deltas, ScriptOf;
    var all := lines + [last];
    LinesBefore(all, rest);
    assert Lines(BytesOf(items)) == lines + ([last] + Lines(rest));
    ScriptRuns(read, lines, [last] + Lines(rest));
    LastLine(read, lines, last, Lines(rest));
  }

  lemma LastLine(read: string -> Reading, lines: seq<string>, last: string, more: seq<string>)
    requires read(last).end.Some?
    ensures ScriptOf(read, [last] + more) == Script(DeltaOf(read(last)), read(last).end)
    ensures Deltas(read, lines + [last]) == Deltas(read, lines) + DeltaOf(read(last))
  {
    assert ([last] + more)[0] == last;
    DeltasMore(read, lines, last);
  }

  lemma {:induction false} DeltasMore(read: string -> Reading, lines: seq<string>, last: string)
    ensures Deltas(read, lines + [last]) == Deltas(read, lines) + DeltaOf(read(last))
  {
    if lines == [] {
      assert lines + [last] == [last] && [last][1..] == [];
    } else {
      DeltasMore(read, lines[1..], last);
      assert (lines + [last])[1..] == lines[1..] + [last];
    }
  }

  /**
    A chat that no line ends: all texts, and an end that depends on why the bytes stop.  An unfinished last line does
    not count.
   */
  lemma UnendedChat(read: string -> Reading, items: seq<Item>, lines: seq<string>, tail: string)
    requires BytesOf(items) == Terminated(lines) + tail && OneLine(tail)
    requires forall line | line in lines :: OneLine(line) && read(line).end.None?
    ensures
      var told := Deltas(read, lines);
      var end := match StopOf(items)
                 case Eof => Completed(Aborted)
                 case BrokenOff => if told == [] then Failed else Completed(Aborted)
                 case CancelledThen => Cancelled;
      Chat(read, Open(items)) ==
      (told + [Ended(end)],
       if end.Failed? then OutcomeFailed else if end.Cancelled? then OutcomeCancelled else OutcomeCompleted)
  {
    hide Lines, BytesOf, StopOf, Deltas, ScriptOf, Terminated;
    CompleteLines(lines, tail);
    ScriptRuns(read, lines, []);
    NothingMore(read, lines, Deltas(read, lines));
  }

  lemma NothingMore(read: string -> Reading, lines: seq<string>, told: seq<Event>)
    ensures lines + [] == lines && Before(told, ScriptOf(read, [])) == Script(told, None)
  {
    assert told + [] == told;
  }

  /** Without a stream there is just the end: the caller's, or a failure. */
  lemma NoStream(read: string -> Reading, connection: Connection)
    requires !connection.Open?
    ensures
      var (events, outcome) := Chat(read, connection);
      && |events| == 1
      && (connection == CancelledFirst <==> events[0] == Ended(Cancelled) && outcome == OutcomeCancelled)
      && (connection != CancelledFirst <==> events[0] == Ended(Failed) && outcome == OutcomeFailed)
  {
  }

  // ---- Ollama -------------------------------------------------------------------------------

  /** A line of JSON, padded or not: an error fails, text is told, and `done` ends the answer with its reason. */
  lemma OllamaReads(parse: string -> Option<OllamaChunk>, a: string, json: string, b: string, c: OllamaChunk)
    requires Padding(a) && Core(json) && json != "" && Padding(b) && parse(json) == Some(c)
    ensures
      var r := ReadOllama(parse, a + json + b);
      && (c.error.Some? ==> r == Reading(None, Some(Failed)))
      && (c.error.None? ==>
            && r.delta == (if c.content == Some("") then None else c.content)
            && (r.end.Some? <==> c.done)
            && (c.done ==> r.end.value.Completed?)
            && (c.done && c.doneReason == Some("stop") ==> r.end.value.reason == Stopped)
            && (c.done && c.doneReason == Some("length") ==> r.end.value.reason == Length)
            && (c.done && c.doneReason in {Some("load"), Some("unload")} ==> r.end.value.reason == Meta)
            && (c.done && c.doneReason !in {Some("stop"), Some("length"), Some("load"), Some("unload")} ==>
                  r.end.value.reason == Unknown))
  {
    Padded(a, json, b);
    hide TrimAscii;
  }

  /** Blank lines and lines that are no JSON tell nothing. */
  lemma OllamaSkips(parse: string -> Option<OllamaChunk>, a: string, text: string, b: string)
    requires Padding(a) && Core(text) && Padding(b) && (text == "" || parse(text).None?)
    ensures ReadOllama(parse, a + text + b) == Reading(None, None)
  {
    Padded(a, text, b);
    hide TrimAscii;
  }

  // ---- LM Studio and llama.cpp --------------------------------------------------------------

  lemma BehindColon(gap: string, payload: string)
    requires Padding(gap) && Core(payload)
    ensures
      var core := "data:" + gap + payload;
      && core[5..] == gap + payload && TrimAscii(core[5..]) == payload
      && ("data: " <= core && payload != "" ==> TrimAscii(core[6..]) == payload)
      && (payload != "" ==> Core(core))
  {
    hide TrimAscii, Padding, Core;
    var core := "data:" + gap + payload;
    NoPadding(gap);
    assert core[5..] == gap + payload == gap + payload + "";
    Padded(gap, payload, "");
    if "data: " <= core && payload != "" {
      SpaceIsPadding(gap, payload);
      Padded(gap[1..], payload, "");
      assert core[6..] == gap[1..] + payload + "";
    }
    StillCore(gap, payload);
  }

  lemma NoPadding(gap: string)
    ensures Padding("") && (Padding(gap) && gap != "" ==> Padding(gap[1..]))
  {
  }

  lemma SpaceIsPadding(gap: string, payload: string)
    requires Core(payload) && payload != "" && "data: " <= "data:" + gap + payload
    ensures gap != ""
  {
    assert ("data:" + gap + payload)[5] == ' ';
  }

  lemma StillCore(gap: string, payload: string)
    requires Core(payload)
    ensures payload != "" ==> Core("data:" + gap + payload)
  {
    var core := "data:" + gap + payload;
    if payload != "" {
      assert core[|core| - 1] == payload[|payload| - 1];
    }
  }

  /** A data line: with or without space behind the colon, the payload is what stands there. */
  lemma PayloadIs(a: string, gap: string, payload: string, b: string)
    requires Padding(a) && Padding(gap) && Core(payload) && Padding(b)
    ensures Payload(a + "data:" + gap + payload + b) == Some(payload)
  {
    hide TrimAscii;
    var line := a + "data:" + gap + payload + b;
    BehindColon(gap, payload);
    if payload == "" {
      assert line == a + "data:" + (gap + b);
      Padded(a, "data:", gap + b);
      BehindColon("", "");
      assert "data:" + "" + "" == "data:" && !("data: " <= "data:");
    } else {
      assert line == a + ("data:" + gap + payload) + b;
      Padded(a, "data:" + gap + payload, b);
    }
  }

  /** The end marker ends the answer; a chunk tells the text of its first choice, and a finish reason ends it. */
  lemma OpenAiReads(parse: string -> Option<OpenAiChunk>, a: string, gap: string, payload: string, b: string)
    requires Padding(a) && Padding(gap) && Core(payload) && Padding(b)
    ensures
      var r := ReadOpenAi(parse, a + "data:" + gap + payload + b);
      && (payload == "[DONE]" ==> r == Reading(None, Some(Completed(Unknown))))
      && (payload != "[DONE]" && (parse(payload).None? || parse(payload).value.choices == []) ==>
            r == Reading(None, None))
      && (payload != "[DONE]" && parse(payload).Some? && parse(payload).value.choices != [] ==>
            var choice := parse(payload).value.choices[0];
            && r.delta == (if choice.content == Some("") then None else choice.content)
            && (choice.finishReason.None? ==> r.end.None?)
            && (choice.finishReason == Some("stop") ==> r.end == Some(Completed(Stopped)))
            && (choice.finishReason == Some("length") ==> r.end == Some(Completed(Length)))
            && (choice.finishReason.Some? && choice.finishReason.value !in {"stop", "length"} ==>
                  r.end == Some(Completed(Unknown))))
  {
    PayloadIs(a, gap, payload, b);
    hide Payload;
  }

  /** A line that is no data line tells nothing. */
  lemma OpenAiSkips(parse: string -> Option<OpenAiChunk>, a: string, text: string, b: string)
    requires Padding(a) && Core(text) && Padding(b) && !("data:" <= text)
    ensures ReadOpenAi(parse, a + text + b) == Reading(None, None)
  {
    Padded(a, text, b);
    hide TrimAscii;
  }

  // ---- A whole answer -----------------------------------------------------------------------

  /** The data line of a payload, with a space or without. */
  function DataLine(payload: string, spaced: bool): string {
    (if spaced then "data: " else "data:") + payload
  }

  /** The payload is a chunk whose first choice says just `text`. */
  predicate Says(parse: string -> Option<OpenAiChunk>, payload: string, text: string) {
    && Core(payload) && OneLine(payload) && payload != "[DONE]" && text != ""
    && parse(payload).Some? && parse(payload).value.choices != []
    && parse(payload).value.choices[0] == Choice(Some(text), None)
  }

  function DataLines(payloads: seq<string>, spaced: nat -> bool): seq<string> {
    seq(|payloads|, i requires 0 <= i < |payloads| => DataLine(payloads[i], spaced(i)))
  }

  function AsDeltas(texts: seq<string>): seq<Event> {
    seq(|texts|, i requires 0 <= i < |texts| => Delta(texts[i]))
  }

  lemma DataLineReads(parse: string -> Option<OpenAiChunk>, payload: string, spaced: bool)
    requires Core(payload) && OneLine(payload)
    ensures OneLine(DataLine(payload, spaced))
    ensures forall text | Says(parse, payload, text) ::
              ReadOpenAi(parse, DataLine(payload, spaced)) == Reading(Some(text), None)
    ensures payload == "[DONE]" ==>
              ReadOpenAi(parse, DataLine(payload, spaced)) == Reading(None, Some(Completed(Unknown)))
  {
    var gap := if spaced then " " else "";
    assert "" + "data:" + gap + payload + "" == DataLine(payload, spaced);
    OpenAiReads(parse, "", gap, payload, "");
    hide ReadOpenAi;
  }

  lemma {:induction false} DeltasSaid(parse: string -> Option<OpenAiChunk>, payloads: seq<string>, texts: seq<string>,
                                      spaced: nat -> bool, n: nat)
    requires |payloads| == |texts| && n <= |texts| && forall i | 0 <= i < |texts| :: Says(parse, payloads[i], texts[i])
    ensures
      var lines := DataLines(payloads, spaced);
      && Deltas(line => ReadOpenAi(parse, line), lines[..n]) == AsDeltas(texts)[..n]
      && forall i | 0 <= i < n :: OneLine(lines[i]) && ReadOpenAi(parse, lines[i]).end.None?
  {
    hide ReadOpenAi, Says, OneLine;
    var lines := DataLines(payloads, spaced);
    if n > 0 {
      DeltasSaid(parse, payloads, texts, spaced, n - 1);
      assert Says(parse, payloads[n - 1], texts[n - 1]);
      SaidIsCore(parse, payloads[n - 1], texts[n - 1]);
      DataLineReads(parse, payloads[n - 1], spaced(n - 1));
      DeltasMore(line => ReadOpenAi(parse, line), lines[..n - 1], lines[n - 1]);
      assert lines[..n] == lines[..n - 1] + [lines[n - 1]];
    }
  }

  lemma SaidIsCore(parse: string -> Option<OpenAiChunk>, payload: string, text: string)
    requires Says(parse, payload, text)
    ensures Core(payload) && OneLine(payload)
  {
  }

  /** An answer told in chunks and closed by the end marker, however its lines are spaced and cut into packets. */
  lemma OpenAiAnswer(parse: string -> Option<OpenAiChunk>, payloads: seq<string>, texts: seq<string>,
                     spaced: nat -> bool, items: seq<Item>, rest: string)
    requires |payloads| == |texts| && forall i | 0 <= i < |texts| :: Says(parse, payloads[i], texts[i])
    requires BytesOf(items) == Terminated(DataLines(payloads, spaced) + [DataLine("[DONE]", spaced(|texts|))]) + rest
    ensures
      Chat(line => ReadOpenAi(parse, line), Open(items)) ==
      (AsDeltas(texts) + [Ended(Completed(Unknown))], OutcomeCompleted)
  {
    hide ReadOpenAi, Says, OneLine, Deltas, Chat, BytesOf, Terminated;
    var read := line => ReadOpenAi(parse, line);
    var lines, last, n := DataLines(payloads, spaced), DataLine("[DONE]", spaced(|texts|)), |texts|;
    DeltasSaid(parse, payloads, texts, spaced, n);
    assert lines[..n] == lines && AsDeltas(texts)[..n] == AsDeltas(texts);
    DoneIsCore();
    DataLineReads(parse, "[DONE]", spaced(n));
    EndedChat(read, items, lines, last, rest);
    DeltasMore(read, lines, last);
    assert AsDeltas(texts) + [] == AsDeltas(texts);
  }

  lemma DoneIsCore()
    ensures Core("[DONE]") && OneLine("[DONE]")
  {
  }
}
