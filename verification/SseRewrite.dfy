/**
  Rewriting a streamed response event by event with the pipeline chain.

  The chain is any function that threads a state; JSON is a pair of functions that need not be inverse.
*/
module SseRewrite {
  import opened Text
  import opened SseCodec
  import opened SseSegments
  import opened SseRoundTrip

  datatype ChainStep<S, V, E> = Passed(state: S, value: V) | Refused(state: S, error: E)

  /** What the rewriter is built on: the chain, and JSON decoding and encoding. */
  datatype Tools<!S, !V, !E> = Tools(
    chain: (S, V) -> ChainStep<S, V, E>,
    decode: string -> Option<V>,
    encode: V -> Option<string>)

  /** The response sent on: a body, or the error envelope for a chain refusal. */
  datatype Response<S, E> = Body(text: string, state: S) | Envelope(error: E, state: S)

  predicate IsDone(c: SseChunk) {
    Trim(c.data) == "[DONE]"
  }

  /** The chunks in a list of parse results; frames without data are skipped. */
  function WellFormed(results: seq<ParseResult>): seq<SseChunk> {
    if results == [] then []
    else (if results[0].Parsed? then [results[0].chunk] else []) + WellFormed(results[1..])
  }

  /** The value the chain is applied to for a chunk, if it is applied at all. */
  function Subject<S, V, E>(t: Tools<S, V, E>, c: SseChunk): Option<V> {
    if IsDone(c) then None else t.decode(c.data)
  }

  /** What the chain says about one chunk, when it is asked at all. */
  function Verdict<S, V, E>(t: Tools<S, V, E>, c: SseChunk, s: S): Option<ChainStep<S, V, E>> {
    match Subject(t, c)
    case None => None
    case Some(v) => Some(t.chain(s, v))
  }

  predicate RefusedBy<S, V, E>(t: Tools<S, V, E>, c: SseChunk, s: S) {
    var v := Verdict(t, c, s);
    v.Some? && v.value.Refused?
  }

  /** The chain gives the chunk a new value. */
  predicate ChangedBy<S, V(==), E>(t: Tools<S, V, E>, c: SseChunk, s: S) {
    var v := Verdict(t, c, s);
    v.Some? && v.value.Passed? && v.value.value != Subject(t, c).value
  }

  /** The chunk as it is sent on: new data if its value changed and can be encoded, the same event and id. */
  function SentFor<S, V(==), E>(t: Tools<S, V, E>, c: SseChunk, s: S): SseChunk {
    if !ChangedBy(t, c, s) then c
    else
      match t.encode(Verdict(t, c, s).value.value)
      case None => c
      case Some(text) => c.(data := text)
  }

  function StateFor<S, V, E>(t: Tools<S, V, E>, c: SseChunk, s: S): S {
    match Verdict(t, c, s)
    case None => s
    case Some(v) => v.state
  }

  /** The chain's state after it has passed the first `n` chunks. */
  function StateAfter<S, V, E>(t: Tools<S, V, E>, chunks: seq<SseChunk>, n: nat, s: S): S
    requires n <= |chunks|
  {
    if n == 0 then s else StateFor(t, chunks[n - 1], StateAfter(t, chunks, n - 1, s))
  }

  /** The chain refuses chunk `i` when it gets there. */
  predicate RefusedAt<S, V, E>(t: Tools<S, V, E>, chunks: seq<SseChunk>, i: nat, s: S)
    requires i < |chunks|
  {
    RefusedBy(t, chunks[i], StateAfter(t, chunks, i, s))
  }

  predicate ChangedAt<S, V(==), E>(t: Tools<S, V, E>, chunks: seq<SseChunk>, i: nat, s: S)
    requires i < |chunks|
  {
    ChangedBy(t, chunks[i], StateAfter(t, chunks, i, s))
  }

  function SentAt<S, V(==), E>(t: Tools<S, V, E>, chunks: seq<SseChunk>, i: nat, s: S): SseChunk
    requires i < |chunks|
  {
    SentFor(t, chunks[i], StateAfter(t, chunks, i, s))
  }

  function Sent<S, V(==), E>(t: Tools<S, V, E>, chunks: seq<SseChunk>, n: nat, s: S): seq<SseChunk>
    requires n <= |chunks|
  {
    if n == 0 then [] else Sent(t, chunks, n - 1, s) + [SentAt(t, chunks, n - 1, s)]
  }

  function WellFormedOf(input: string): seq<SseChunk> {
    WellFormed(StreamResults([input]))
  }

  lemma {:induction false} WellFormedConcat(a: seq<ParseResult>, b: seq<ParseResult>)
    ensures WellFormed(a + b) == WellFormed(a) + WellFormed(b)
  {
    if a == [] {
      assert a + b == b;
    } else {
      assert a + b == [a[0]] + (a[1..] + b) && a == [a[0]] + a[1..];
      WellFormedConcat(a[1..], b);
      WellFormedCons(a[0], a[1..] + b);
      WellFormedCons(a[0], a[1..]);
    }
  }

  function ChunkIn(r: ParseResult): seq<SseChunk> {
    if r.Parsed? then [r.chunk] else []
  }

  lemma WellFormedCons(r: ParseResult, more: seq<ParseResult>)
    ensures WellFormed([r] + more) == ChunkIn(r) + WellFormed(more)
  {
    assert ([r] + more)[1..] == more;
  }

  /** The chunks of the first `k + 1` results: those of the first `k`, and the next one if it is well formed. */
  lemma {:induction false} WellFormedNext(results: seq<ParseResult>, k: nat, chunks: seq<SseChunk>, n: nat)
    requires k < |results| && chunks == WellFormed(results)
    requires n <= |chunks| && WellFormed(results[..k]) == chunks[..n]
    ensures results[k].DataMissing? ==> WellFormed(results[..k + 1]) == chunks[..n]
    ensures results[k].Parsed? ==>
              n < |chunks| && chunks[n] == results[k].chunk && WellFormed(results[..k + 1]) == chunks[..n + 1]
  {
    var before, r, after := results[..k], results[k], results[k + 1..];
    assert results == before + ([r] + after) && results[..k + 1] == before + ([r] + []);
    WellFormedConcat(before, [r] + after);
    WellFormedConcat(before, [r] + []);
    WellFormedCons(r, after);
    WellFormedCons(r, []);
    TakeLonger(chunks, n, ChunkIn(r), WellFormed(after));
  }

  lemma TakeLonger(chunks: seq<SseChunk>, n: nat, more: seq<SseChunk>, rest: seq<SseChunk>)
    requires n <= |chunks| && chunks == chunks[..n] + (more + rest)
    ensures n + |more| <= |chunks| && chunks[..n] + (more + []) == chunks[..n + |more|]
    ensures more != [] ==> chunks[n] == more[0]
  {
    assert chunks[n..] == more + rest;
  }

  lemma {:induction false} WireAppend(chunks: seq<SseChunk>, c: SseChunk)
    ensures WireAll(chunks + [c]) == WireAll(chunks) + WireText(c)
  {
    if chunks == [] {
      assert chunks + [c] == [c];
    } else {
      assert (chunks + [c])[1..] == chunks[1..] + [c];
      WireAppend(chunks[1..], c);
    }
  }

  /** One turn of the loop: what to append, and what the chain said. */
  method HandleChunk<S, V(==), E>(t: Tools<S, V, E>, chunk: SseChunk, s: S)
    returns (text: string, changed: bool, verdict: Option<ChainStep<S, V, E>>)
    ensures verdict == Verdict(t, chunk, s)
    ensures !RefusedBy(t, chunk, s) ==> text == WireText(SentFor(t, chunk, s))
    ensures changed == ChangedBy(t, chunk, s)
  {
    changed := false;
    if IsDone(chunk) {
      text := Serialize(chunk);
      return text, false, None;
    }
    var value := t.decode(chunk.data);
    if value.None? {
      text := Serialize(chunk);
      return text, false, None;
    }
    var step := t.chain(s, value.value);
    verdict := Some(step);
    if step.Refused? {
      return "", false, verdict;
    }
    if step.value == value.value {
      text := Serialize(chunk);
    } else {
      changed := true;
      var data := t.encode(step.value);
      if data.None? {
        text := Serialize(chunk);
      } else {
        text := Serialize(SseChunk(chunk.event, data.value, chunk.id));
      }
    }
  }

  ghost predicate AnyChange<S, V, E>(t: Tools<S, V, E>, chunks: seq<SseChunk>, n: nat, s: S)
    requires n <= |chunks|
  {
    exists i | 0 <= i < n :: ChangedAt(t, chunks, i, s)
  }

  ghost predicate NoRefusal<S, V, E>(t: Tools<S, V, E>, chunks: seq<SseChunk>, n: nat, s: S)
    requires n <= |chunks|
  {
    forall i | 0 <= i < n :: !RefusedAt(t, chunks, i, s)
  }

  lemma NextSent<S, V, E>(t: Tools<S, V, E>, chunks: seq<SseChunk>, n: nat, s: S)
    requires n < |chunks|
    ensures WireAll(Sent(t, chunks, n + 1, s)) == WireAll(Sent(t, chunks, n, s)) + WireText(SentAt(t, chunks, n, s))
  {
    WireAppend(Sent(t, chunks, n, s), SentAt(t, chunks, n, s));
  }

  lemma {:induction false} SentIndex<S, V, E>(t: Tools<S, V, E>, chunks: seq<SseChunk>, n: nat, s: S)
    requires n <= |chunks|
    ensures
      var sent := Sent(t, chunks, n, s);
      |sent| == n && forall i | 0 <= i < n :: sent[i] == SentAt(t, chunks, i, s)
  {
    hide SentAt;
    if n > 0 {
      SentIndex(t, chunks, n - 1, s);
      assert Sent(t, chunks, n, s) == Sent(t, chunks, n - 1, s) + [SentAt(t, chunks, n - 1, s)];
    }
  }

  /** The first `n` chunks have been passed, `out` printed, and the chain is in `state`. */
  ghost predicate Progress<S, V, E>(t: Tools<S, V, E>, chunks: seq<SseChunk>, n: nat, s: S, out: string,
                                    changed: bool, state: S) {
    && n <= |chunks|
    && NoRefusal(t, chunks, n, s)
    && changed == AnyChange(t, chunks, n, s)
    && out == WireAll(Sent(t, chunks, n, s))
    && state == StateAfter(t, chunks, n, s)
  }

  lemma PassOne<S, V, E>(t: Tools<S, V, E>, chunks: seq<SseChunk>, n: nat, s: S, out: string, changed: bool, state: S)
    requires n < |chunks| && Progress(t, chunks, n, s, out, changed, state)
    requires !RefusedBy(t, chunks[n], state)
    ensures Progress(t, chunks, n + 1, s, out + WireText(SentFor(t, chunks[n], state)),
                   changed || ChangedBy(t, chunks[n], state), StateFor(t, chunks[n], state))
  {
    NextSent(t, chunks, n, s);
    NextChange(t, chunks, n, s);
  }

  lemma NextChange<S, V, E>(t: Tools<S, V, E>, chunks: seq<SseChunk>, n: nat, s: S)
    requires n < |chunks|
    ensures AnyChange(t, chunks, n + 1, s) <==> AnyChange(t, chunks, n, s) || ChangedAt(t, chunks, n, s)
  {
  }

  /**
    An envelope is sent for the first refusal; otherwise the body is the input itself when no value changed,
    and the printed chunks when one did.
   */
  ghost predicate Answers<S, V, E>(t: Tools<S, V, E>, chunks: seq<SseChunk>, input: string, s: S, r: Response<S, E>) {
    match r
    case Body(text, state) =>
      && NoRefusal(t, chunks, |chunks|, s)
      && state == StateAfter(t, chunks, |chunks|, s)
      && text == if AnyChange(t, chunks, |chunks|, s) then WireAll(Sent(t, chunks, |chunks|, s)) else input
    case Envelope(error, state) =>
      exists i | 0 <= i < |chunks| ::
        && NoRefusal(t, chunks, i, s)
        && Verdict(t, chunks[i], StateAfter(t, chunks, i, s)) == Some(Refused(state, error))
  }

  method ProcessSseResponse<S, V(==), E>(t: Tools<S, V, E>, input: string, s: S) returns (r: Response<S, E>)
    ensures Answers(t, WellFormedOf(input), input, s, r)
  {
    if input == "" {
      NothingToSend();
      return Body(input, s);
    }
    var results := ParseStream([input]);
    if results == [] {
      return Body(input, s);
    }
    r := RewriteChunks(t, results, input, s);
  }

  method RewriteChunks<S, V(==), E>(t: Tools<S, V, E>, results: seq<ParseResult>, input: string, s: S)
    returns (r: Response<S, E>)
    ensures Answers(t, WellFormed(results), input, s, r)
  {
    hide WellFormed, WireText, Sent, StateAfter, SentFor;
    ghost var chunks := WellFormed(results);
    var out, anyChange, state := "", false, s;
    ghost var n: nat := 0;
    var k := 0;
    NothingPassed(t, chunks, results, s);
    while k < |results|
      invariant 0 <= k <= |results| && n <= |chunks|
      invariant WellFormed(results[..k]) == chunks[..n]
      invariant Progress(t, chunks, n, s, out, anyChange, state)
    {
      WellFormedNext(results, k, chunks, n);
      var result := results[k];
      k := k + 1;
      if result.DataMissing? {
        continue;
      }
      var text, changed, verdict := HandleChunk(t, result.chunk, state);
      if verdict.Some? && verdict.value.Refused? {
        return Envelope(verdict.value.error, verdict.value.state);
      }
      PassOne(t, chunks, n, s, out, anyChange, state);
      n := n + 1;
      out := out + text;
      anyChange := anyChange || changed;
      if verdict.Some? {
        state := verdict.value.state;
      }
    }
    assert results[..|results|] == results;
    r := Body(if anyChange then out else input, state);
  }

  lemma NothingPassed<S, V, E>(t: Tools<S, V, E>, chunks: seq<SseChunk>, results: seq<ParseResult>, s: S)
    ensures WellFormed(results[..0]) == chunks[..0] && Progress(t, chunks, 0, s, "", false, s)
  {
  }

  lemma NothingToSend()
    ensures WellFormedOf("") == []
  {
    FeedOne("", "");
    assert "" + "" == "" && NextSep("").None?;
  }

  /** A chain that changes no value leaves the response untouched, byte for byte. */
  lemma UnchangedIsIdentical<S, V, E>(t: Tools<S, V, E>, input: string, s: S, r: Response<S, E>)
    requires Answers(t, WellFormedOf(input), input, s, r)
    requires
      var chunks := WellFormedOf(input);
      forall i | 0 <= i < |chunks| :: var v := Verdict(t, chunks[i], StateAfter(t, chunks, i, s));
        v.None? || (v.value.Passed? && v.value.value == Subject(t, chunks[i]).value)
    ensures r == Body(input, StateAfter(t, WellFormedOf(input), |WellFormedOf(input)|, s))
  {
    var chunks := WellFormedOf(input);
    assert forall i | 0 <= i < |chunks| :: !ChangedAt(t, chunks, i, s) && !RefusedAt(t, chunks, i, s);
  }

  /**
    The receiver of a changed response parses exactly one chunk for each well-formed chunk of the input, in order:
    the same event and id, and the chain's encoded value as data where it changed.  This holds if and only if the
    chunks sent are `Clean`.
   */
  lemma ChangedIsReadable<S, V, E>(t: Tools<S, V, E>, chunks: seq<SseChunk>, input: string, s: S, r: Response<S, E>)
    requires Answers(t, chunks, input, s, r) && r.Body? && AnyChange(t, chunks, |chunks|, s)
    ensures
      var back := StreamResults([r.text]);
      && ((forall i | 0 <= i < |chunks| :: Clean(SentAt(t, chunks, i, s))) <==>
          |back| == |chunks| && forall i | 0 <= i < |chunks| :: back[i] == Parsed(SentAt(t, chunks, i, s)))
  {
    hide Clean, StreamResults, WireAll;
    var sent := Sent(t, chunks, |chunks|, s);
    RoundTripByIndex(sent);
    SentIndex(t, chunks, |chunks|, s);
  }

  lemma RoundTripByIndex(sent: seq<SseChunk>)
    ensures
      var back := StreamResults([WireAll(sent)]);
      (forall i | 0 <= i < |sent| :: Clean(sent[i])) <==>
      |back| == |sent| && forall i | 0 <= i < |sent| :: back[i] == Parsed(sent[i])
  {
    RoundTripExact(sent);
    ParsedAllIndex(sent, StreamResults([WireAll(sent)]));
    assert forall i | 0 <= i < |sent| :: sent[i] in sent;
  }

  lemma {:induction false} ParsedAllIndex(chunks: seq<SseChunk>, back: seq<ParseResult>)
    ensures back == ParsedAll(chunks) <==>
            |back| == |chunks| && forall i | 0 <= i < |chunks| :: back[i] == Parsed(chunks[i])
  {
    if chunks != [] && back != [] {
      ParsedAllIndex(chunks[1..], back[1..]);
      assert back == [back[0]] + back[1..];
      assert ParsedAll(chunks)[1..] == ParsedAll(chunks[1..]);
    }
  }

  /** A clean chunk is sent on clean if its new value is encoded on one line. */
  lemma SentIsClean<S, V, E>(t: Tools<S, V, E>, c: SseChunk, s: S)
    requires Clean(c)
    requires ChangedBy(t, c, s) ==>
               var text := t.encode(Verdict(t, c, s).value.value); text.Some? ==> '\n' !in text.value
    ensures Clean(SentFor(t, c, s))
    ensures SentFor(t, c, s).event == c.event && SentFor(t, c, s).id == c.id
    ensures Subject(t, c).None? ==> SentFor(t, c, s) == c
  {
  }

  // ---- What the receiver reads --------------------------------------------------------------

  /** `chunks` are the parsed ones among the results, at the positions `at`, in order. */
  ghost predicate Picks(results: seq<ParseResult>, at: seq<nat>, chunks: seq<SseChunk>) {
    && |at| == |chunks|
    && (forall i | 0 <= i < |at| :: at[i] < |results| && results[at[i]] == Parsed(chunks[i]))
    && (forall i, j | 0 <= i < j < |at| :: at[i] < at[j])
    && (forall k | 0 <= k < |results| && results[k].Parsed? :: k in at)
  }

  lemma {:induction false} PickedAreWellFormed(results: seq<ParseResult>, at: seq<nat>, chunks: seq<SseChunk>)
    requires Picks(results, at, chunks)
    ensures WellFormed(results) == chunks
    decreases |results|
  {
    if results == [] {
      assert at == [];
    } else {
      var n := |results| - 1;
      var r := results[n];
      assert results == results[..n] + ([r] + []);
      WellFormedConcat(results[..n], [r] + []);
      WellFormedCons(r, []);
      if r.Parsed? {
        LastPicked(results, at, chunks);
        var m := |at| - 1;
        PickedAreWellFormed(results[..n], at[..m], chunks[..m]);
        assert chunks == chunks[..m] + [chunks[m]];
      } else {
        assert forall i | 0 <= i < |at| :: at[i] < n;
        PickedAreWellFormed(results[..n], at, chunks);
      }
    }
  }

  lemma LastIsLargest(at: seq<nat>, i: nat)
    requires i < |at| && forall j, k | 0 <= j < k < |at| :: at[j] < at[k]
    ensures at[i] <= at[|at| - 1]
  {
  }

  lemma LastPicked(results: seq<ParseResult>, at: seq<nat>, chunks: seq<SseChunk>)
    requires Picks(results, at, chunks) && results != [] && results[|results| - 1].Parsed?
    ensures
      var n, m := |results| - 1, |at| - 1;
      m >= 0 && at[m] == n && Picks(results[..n], at[..m], chunks[..m])
  {
    var n, m := |results| - 1, |at| - 1;
    assert n in at;
    var i :| 0 <= i < |at| && at[i] == n;
    LastIsLargest(at, i);
    forall k | 0 <= k < n && results[..n][k].Parsed?
      ensures k in at[..m]
    {
      assert results[k].Parsed? && k in at;
      var j :| 0 <= j < |at| && at[j] == k;
      assert at[..m][j] == k;
    }
  }

  /** The chunk is for the chain: not the end marker, and JSON. */
  predicate ForChain<S, V, E>(t: Tools<S, V, E>, c: SseChunk) {
    Trim(c.data) != "[DONE]" && t.decode(c.data).Some?
  }

  /** The chain lets every chunk pass, and goes through these states. */
  ghost predicate Threaded<S, V, E>(t: Tools<S, V, E>, chunks: seq<SseChunk>, states: seq<S>) {
    && |states| == |chunks| + 1
    && forall i | 0 <= i < |chunks| :: Passes(t, chunks[i], states[i], states[i + 1])
  }

  /** The chain lets the chunk pass and goes from one state to the next; it stays where it is when it is not asked. */
  ghost predicate Passes<S, V, E>(t: Tools<S, V, E>, c: SseChunk, s: S, s': S) {
    if ForChain(t, c) then
      var step := t.chain(s, t.decode(c.data).value);
      step.Passed? && step.state == s'
    else s' == s
  }

  /** The chain passes the chunk on with another value. */
  ghost predicate Alters<S, V, E>(t: Tools<S, V, E>, c: SseChunk, s: S) {
    ForChain(t, c) && var v := t.decode(c.data).value; t.chain(s, v).Passed? && t.chain(s, v).value != v
  }

  /** That value is encoded as `text`. */
  ghost predicate AltersTo<S, V, E>(t: Tools<S, V, E>, c: SseChunk, s: S, text: string) {
    Alters(t, c, s) && t.encode(t.chain(s, t.decode(c.data).value).value) == Some(text)
  }

  lemma {:induction false} ThreadedStates<S, V, E>(t: Tools<S, V, E>, chunks: seq<SseChunk>, states: seq<S>,
                                                   all: seq<SseChunk>, n: nat)
    requires Threaded(t, chunks, states) && chunks <= all && n <= |chunks|
    ensures StateAfter(t, all, n, states[0]) == states[n] && NoRefusal(t, all, n, states[0])
  {
    if n > 0 {
      hide Passes, RefusedBy, StateFor;
      ThreadedStates(t, chunks, states, all, n - 1);
      assert all[n - 1] == chunks[n - 1];
      PassedOn(t, chunks[n - 1], states[n - 1], states[n]);
    }
  }

  lemma PassedOn<S, V, E>(t: Tools<S, V, E>, c: SseChunk, s: S, s': S)
    requires Passes(t, c, s, s')
    ensures StateFor(t, c, s) == s' && !RefusedBy(t, c, s)
  {
    hide Trim;
  }

  /** What the receiver is to read for a chunk: the new value's encoding as data, or the chunk as it was. */
  ghost predicate ReadsAs<S, V, E>(t: Tools<S, V, E>, c: SseChunk, s: S, result: ParseResult) {
    && (forall text | AltersTo(t, c, s, text) :: result == Parsed(SseChunk(c.event, text, c.id)))
    && ((forall text :: !AltersTo(t, c, s, text)) ==> result == Parsed(c))
  }

  /** Whatever the chain puts into a chunk is encoded on one line. */
  ghost predicate OneLiners<S, V, E>(t: Tools<S, V, E>, c: SseChunk, s: S) {
    forall text | AltersTo(t, c, s, text) :: '\n' !in text
  }

  lemma SentOn<S, V, E>(t: Tools<S, V, E>, c: SseChunk, s: S)
    ensures ChangedBy(t, c, s) <==> Alters(t, c, s)
    ensures ReadsAs(t, c, s, Parsed(SentFor(t, c, s)))
    ensures Clean(c) && OneLiners(t, c, s) ==> Clean(SentFor(t, c, s))
  {
    hide Trim;
    if Alters(t, c, s) {
      var text := t.encode(t.chain(s, t.decode(c.data).value).value);
      assert text.Some? ==> AltersTo(t, c, s, text.value);
    }
  }

  lemma SentAlong<S, V, E>(t: Tools<S, V, E>, chunks: seq<SseChunk>, states: seq<S>, i: nat)
    requires Threaded(t, chunks, states) && i < |chunks|
    ensures ChangedAt(t, chunks, i, states[0]) <==> Alters(t, chunks[i], states[i])
    ensures ReadsAs(t, chunks[i], states[i], Parsed(SentAt(t, chunks, i, states[0])))
    ensures Clean(chunks[i]) && OneLiners(t, chunks[i], states[i]) ==> Clean(SentAt(t, chunks, i, states[0]))
  {
    hide SentFor, ChangedBy, Alters, ReadsAs, OneLiners, Clean;
    ThreadedStates(t, chunks, states, chunks, i);
    SentOn(t, chunks[i], states[i]);
  }

  /**
    The response as the receiver sees it, told from the chain alone: if it refuses nothing, the response is the input
    unless some value is altered; and then the receiver reads one event for each well-formed one of the input, in
    order, an altered one with the encoding of its new value as data, any other as it was.
   */
  lemma ReceiverReads<S, V, E>(t: Tools<S, V, E>, input: string, s: S, r: Response<S, E>, at: seq<nat>,
                               chunks: seq<SseChunk>, states: seq<S>)
    requires Answers(t, WellFormedOf(input), input, s, r)
    requires Picks(StreamResults([input]), at, chunks)
    requires Threaded(t, chunks, states) && states[0] == s
    ensures r.Body? && r.state == states[|chunks|]
    ensures (forall i | 0 <= i < |chunks| :: !Alters(t, chunks[i], states[i])) ==> r.text == input
    ensures
      && (exists i | 0 <= i < |chunks| :: Alters(t, chunks[i], states[i]))
      && (forall i | 0 <= i < |chunks| :: Clean(chunks[i]) && OneLiners(t, chunks[i], states[i]))
      ==>
        var back := StreamResults([r.text]);
        |back| == |chunks| && forall i | 0 <= i < |chunks| :: ReadsAs(t, chunks[i], states[i], back[i])
  {
    assert |states| == |chunks| + 1;
    hide Clean, StreamResults, Alters, ReadsAs, OneLiners, ChangedAt, SentAt, WellFormed, StateAfter, Threaded, Sent;
    PickedAreWellFormed(StreamResults([input]), at, chunks);
    ThreadedStates(t, chunks, states, chunks, |chunks|);
    NothingRefused(t, chunks, input, s, r);
    forall i | 0 <= i < |chunks|
      ensures ChangedAt(t, chunks, i, s) <==> Alters(t, chunks[i], states[i])
      ensures ReadsAs(t, chunks[i], states[i], Parsed(SentAt(t, chunks, i, s)))
      ensures Clean(chunks[i]) && OneLiners(t, chunks[i], states[i]) ==> Clean(SentAt(t, chunks, i, s))
    {
      SentAlong(t, chunks, states, i);
    }
    if AnyChange(t, chunks, |chunks|, s) {
      ChangedIsReadable(t, chunks, input, s, r);
    }
  }

  lemma NothingRefused<S, V, E>(t: Tools<S, V, E>, chunks: seq<SseChunk>, input: string, s: S, r: Response<S, E>)
    requires Answers(t, chunks, input, s, r) && NoRefusal(t, chunks, |chunks|, s)
    ensures r.Body?
  {
    if r.Envelope? {
      var i :| 0 <= i < |chunks| && NoRefusal(t, chunks, i, s) &&
               Verdict(t, chunks[i], StateAfter(t, chunks, i, s)) == Some(Refused(r.state, r.error));
      assert RefusedAt(t, chunks, i, s);
    }
  }

  /** The first chunk the chain refuses makes the response: its error and the state it left. */
  lemma RefusalIsTold<S, V, E>(t: Tools<S, V, E>, input: string, s: S, r: Response<S, E>, at: seq<nat>,
                               chunks: seq<SseChunk>, states: seq<S>, state: S, error: E)
    requires Answers(t, WellFormedOf(input), input, s, r)
    requires Picks(StreamResults([input]), at, chunks)
    requires 0 < |states| <= |chunks| && Threaded(t, chunks[..|states| - 1], states) && states[0] == s
    requires
      var c := chunks[|states| - 1];
      ForChain(t, c) && t.chain(states[|states| - 1], t.decode(c.data).value) == Refused(state, error)
    ensures r == Envelope(error, state)
  {
    hide StreamResults, WellFormed;
    var k := |states| - 1;
    PickedAreWellFormed(StreamResults([input]), at, chunks);
    ThreadedStates(t, chunks[..k], states, chunks, k);
    assert RefusedAt(t, chunks, k, s);
    if r.Envelope? {
      var i :| 0 <= i < |chunks| && NoRefusal(t, chunks, i, s) &&
               Verdict(t, chunks[i], StateAfter(t, chunks, i, s)) == Some(Refused(r.state, r.error));
      assert RefusedAt(t, chunks, i, s);
      assert i == k;
    }
  }
}
