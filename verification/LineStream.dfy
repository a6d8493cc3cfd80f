/** Byte streams cut into lines, as the runtime adapters read them; a `char` stands for a byte. */
module LineStream {
  import opened Text

  /** What the network yields; the stream ends properly behind the last item. */
  datatype Item = Bytes(bytes: string) | Broken | Cancel

  datatype Stop = Eof | BrokenOff | CancelledThen

  /** The bytes before the first item that is not bytes, and what stops them. */
  function BytesOf(items: seq<Item>): string {
    if items == [] || !items[0].Bytes? then "" else items[0].bytes + BytesOf(items[1..])
  }

  function StopOf(items: seq<Item>): Stop {
    if items == [] then Eof
    else match items[0]
      case Bytes(_) => StopOf(items[1..])
      case Broken => BrokenOff
      case Cancel => CancelledThen
  }

  function Newline(s: string): (r: Option<nat>)
    ensures r.Some? ==> r.value < |s| && s[r.value] == '\n' && forall i | 0 <= i < r.value :: s[i] != '\n'
    ensures r.None? ==> '\n' !in s
  {
    if s == "" then None
    else if s[0] == '\n' then Some(0)
    else match Newline(s[1..])
      case None => None
      case Some(p) => Some(p + 1)
  }

  /** The complete lines, without their newlines; what follows the last newline is no line. */
  function Lines(s: string): seq<string> {
    match Newline(s)
    case None => []
    case Some(p) => [s[..p]] + Lines(s[p + 1..])
  }

  /** The first line of the buffer is the first line of the stream. */
  lemma FirstLine(buffer: string, rest: string, p: nat)
    requires Newline(buffer) == Some(p)
    ensures Lines(buffer + rest) == [buffer[..p]] + Lines(buffer[p + 1..] + rest)
  {
    var s := buffer + rest;
    assert s[..p] == buffer[..p] && s[p + 1..] == buffer[p + 1..] + rest && s[p] == '\n';
  }

  lemma NextBytes(items: seq<Item>, i: nat, buffer: string)
    requires i < |items|
    ensures items[i].Bytes? ==>
              && buffer + BytesOf(items[i..]) == (buffer + items[i].bytes) + BytesOf(items[i + 1..])
              && StopOf(items[i..]) == StopOf(items[i + 1..])
    ensures !items[i].Bytes? ==>
              BytesOf(items[i..]) == "" && StopOf(items[i..]) == if items[i].Broken? then BrokenOff else CancelledThen
  {
    assert items[i..][0] == items[i] && items[i..][1..] == items[i + 1..];
    if items[i].Bytes? {
      Assoc(buffer, items[i].bytes, BytesOf(items[i + 1..]));
    }
  }

  // ---- ASCII --------------------------------------------------------------------------------

  predicate IsAsciiSpace(c: char) {
    c == ' ' || c == '\t' || c == '\n' || c == '\r' || c == '\U{000C}'
  }

  function TrimAscii(s: string): string
    decreases |s|
  {
    if s != "" && IsAsciiSpace(s[0]) then TrimAscii(s[1..])
    else if s != "" && IsAsciiSpace(s[|s| - 1]) then TrimAscii(s[..|s| - 1])
    else s
  }

  function StripPrefix(s: string, prefix: string): Option<string> {
    if prefix <= s then Some(s[|prefix|..]) else None
  }

  // ---- Complete lines -----------------------------------------------------------------------

  /** The bytes of complete lines. */
  function Terminated(lines: seq<string>): string {
    if lines == [] then "" else lines[0] + "\n" + Terminated(lines[1..])
  }

  predicate OneLine(s: string) { '\n' !in s }

  lemma NewlineAt(line: string, rest: string)
    requires OneLine(line)
    ensures Newline(line + "\n" + rest) == Some(|line|)
  {
    var s := line + "\n" + rest;
    assert s[|line|] == '\n' && forall i | 0 <= i < |line| :: s[i] == line[i];
  }

  lemma NoNewline(s: string)
    requires OneLine(s)
    ensures Lines(s) == []
  {
  }

  lemma OneLineRead(line: string, rest: string)
    requires OneLine(line)
    ensures Lines(line + "\n" + rest) == [line] + Lines(rest)
  {
    NewlineAt(line, rest);
    hide Newline;
    var s := line + "\n" + rest;
    assert s[..|line|] == line && s[|line| + 1..] == rest;
  }

  lemma EndedCons(lines: seq<string>, rest: string)
    requires lines != []
    ensures Terminated(lines) + rest == lines[0] + "\n" + (Terminated(lines[1..]) + rest)
  {
  }

  lemma {:induction false} LinesBefore(lines: seq<string>, rest: string)
    requires forall line | line in lines :: OneLine(line)
    ensures Lines(Terminated(lines) + rest) == lines + Lines(rest)
  {
    hide Lines;
    if lines == [] {
      assert "" + rest == rest && [] + Lines(rest) == Lines(rest);
    } else {
      assert lines[0] in lines && forall x | x in lines[1..] :: x in lines;
      LinesBefore(lines[1..], rest);
      EndedCons(lines, rest);
      OneLineRead(lines[0], Terminated(lines[1..]) + rest);
      Regroup(lines, Lines(rest));
    }
  }

  lemma Regroup(lines: seq<string>, more: seq<string>)
    requires lines != []
    ensures [lines[0]] + (lines[1..] + more) == lines + more
  {
  }

  /** What is read are the complete lines; what follows the last newline is not. */
  lemma CompleteLines(lines: seq<string>, tail: string)
    requires OneLine(tail) && forall line | line in lines :: OneLine(line)
    ensures Lines(Terminated(lines) + tail) == lines
  {
    LinesBefore(lines, tail);
    NoNewline(tail);
    assert lines + [] == lines;
  }

  // ---- Padding ------------------------------------------------------------------------------

  predicate Padding(s: string) {
    forall i | 0 <= i < |s| :: s[i] in " \t\n\r\U{000C}"
  }

  /** Text with nothing to trim. */
  predicate Core(s: string) {
    s != "" ==> s[0] !in " \t\n\r\U{000C}" && s[|s| - 1] !in " \t\n\r\U{000C}"
  }

  lemma {:induction false} PaddingBefore(pad: string, s: string)
    requires Padding(pad)
    ensures TrimAscii(pad + s) == TrimAscii(s)
  {
    if pad == "" {
      assert pad + s == s;
    } else {
      PaddingBefore(pad[1..], s);
      assert (pad + s)[0] == pad[0] && (pad + s)[1..] == pad[1..] + s;
    }
  }

  lemma {:induction false} PaddingAfter(s: string, pad: string)
    requires Padding(pad) && Core(s)
    ensures TrimAscii(s + pad) == s
  {
    if s == "" {
      PaddingBefore(pad, "");
      assert s + pad == pad == pad + "";
    } else if pad == "" {
      assert s + pad == s;
    } else {
      var n := |pad| - 1;
      PaddingAfter(s, pad[..n]);
      assert (s + pad)[0] == s[0] && (s + pad)[|s + pad| - 1] == pad[n] && (s + pad)[..|s + pad| - 1] == s + pad[..n];
    }
  }

  lemma Padded(a: string, s: string, b: string)
    requires Padding(a) && Core(s) && Padding(b)
    ensures TrimAscii(a + s + b) == s
  {
    hide TrimAscii;
    assert a + s + b == a + (s + b);
    PaddingBefore(a, s + b);
    PaddingAfter(s, b);
  }
}
