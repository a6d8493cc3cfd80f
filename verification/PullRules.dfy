/** What a model pull tells and when it is tried again, told from its lines without the functions that read them. */
module PullRules {
  import opened Text
  import opened LineStream
  import opened ModelPull

  // ---- One line -----------------------------------------------------------------------------

  /** Blank lines and lines that are no JSON change nothing and tell nothing. */
  lemma SkippedLine(parse: string -> Option<PullChunk>, s: State, a: string, text: string, b: string)
    requires Padding(a) && Core(text) && Padding(b) && (text == "" || parse(text).None?)
    ensures ReadLine(parse, s, a + text + b) == Story(s, [], None)
  {
    Padded(a, text, b);
    hide TrimAscii, Read;
  }

  /** An error ends the attempt, for good just if it says that there is no such model. */
  lemma ErrorEnds(parse: string -> Option<PullChunk>, s: State, a: string, json: string, b: string, error: string)
    requires Padding(a) && Core(json) && json != "" && Padding(b)
    requires parse(json).Some? && parse(json).value.error == Some(error)
    ensures
      var missing := exists i, j | 0 <= i <= j <= |error| :: error[i..j] in {"not found", "does not exist"};
      ReadLine(parse, s, a + json + b) == Story(s, [], Some(if missing then PermanentFailed else TransientFailed))
  {
    Padded(a, json, b);
    hide TrimAscii;
    OccursSomewhere(error, "not found");
    OccursSomewhere(error, "does not exist");
    hide Contains;
  }

  lemma OccursSomewhere(s: string, needle: string)
    ensures Contains(s, needle) <==> exists i, j | 0 <= i <= j <= |s| :: s[i..j] == needle
  {
    if Contains(s, needle) {
      var i :| 0 <= i <= |s| && OccursAt(s, needle, i);
      assert s[i..i + |needle|] == needle;
    }
    if i, j :| 0 <= i <= j <= |s| && s[i..j] == needle {
      assert OccursAt(s, needle, i);
    }
  }

  /** The line that says success ends the attempt, and the pull. */
  lemma SuccessEnds(parse: string -> Option<PullChunk>, s: State, a: string, json: string, b: string)
    requires Padding(a) && Core(json) && json != "" && Padding(b)
    requires parse(json).Some? && parse(json).value.error.None? && parse(json).value.status == Some("success")
    ensures
      var story := ReadLine(parse, s, a + json + b);
      && story.end == Some(AttemptCompleted)
      && story.events == (if s.lastStatus == Some("success") then [] else [Status("success")]) + [Completed]
  {
    Padded(a, json, b);
    hide TrimAscii;
  }

  /** Per cent done; nothing yet as long as no layer has a size. */
  function Done(s: State): int {
    if TotalSum(s.layers) == 0 then -1 else CompletedSum(s.layers) * 100 / TotalSum(s.layers)
  }

  function Largest(a: nat, b: Option<nat>): nat {
    if b.Some? && a < b.value then b.value else a
  }

  /** The layers after a line: those before, the largest numbers reported so far for each. */
  ghost predicate Reported(layers: seq<Layer>, c: PullChunk, layers': seq<Layer>) {
    if c.digest.None? then layers' == layers
    else
      forall d ::
        Find(layers', d) ==
        if d != c.digest.value then Find(layers, d)
        else
          var before := if Find(layers, d).Some? then Find(layers, d).value else Layer(d, 0, 0);
          Some(Layer(d, Largest(before.total, c.total), Largest(before.completed, c.completed)))
  }

  lemma UpsertReports(layers: seq<Layer>, c: PullChunk)
    requires c.digest.Some?
    ensures Reported(layers, c, Upsert(layers, c.digest.value, Or(c.total), Or(c.completed)))
  {
    forall d
      ensures
        Find(Upsert(layers, c.digest.value, Or(c.total), Or(c.completed)), d) ==
        if d != c.digest.value then Find(layers, d)
        else
          var before := if Find(layers, d).Some? then Find(layers, d).value else Layer(d, 0, 0);
          Some(Layer(d, Largest(before.total, c.total), Largest(before.completed, c.completed)))
    {
      UpsertFinds(layers, c.digest.value, Or(c.total), Or(c.completed), d);
      FoundDigest(layers, d);
    }
  }

  lemma NothingReported(layers: seq<Layer>, c: PullChunk)
    ensures c.digest.None? ==> Reported(layers, c, layers)
  {
  }

  lemma {:induction false} FoundDigest(layers: seq<Layer>, d: string)
    ensures Find(layers, d).Some? ==> Find(layers, d).value.digest == d
  {
    if layers != [] && layers[0].digest != d { FoundDigest(layers[1..], d); }
  }

  /**
    Any other line: its numbers go into the layers; a status that is new is told, and so is the progress, if and only
    if a whole per cent more is done than was ever shown.
   */
  lemma ProgressIsTold(parse: string -> Option<PullChunk>, s: State, a: string, json: string, b: string)
    requires Padding(a) && Core(json) && json != "" && Padding(b) && s.lastPct >= -1
    requires parse(json).Some? && parse(json).value.error.None? && parse(json).value.status != Some("success")
    ensures
      var c, story := parse(json).value, ReadLine(parse, s, a + json + b);
      var s' := story.state;
      && story.end.None? && Reported(s.layers, c, s'.layers)
      && s'.lastStatus == (if c.status.Some? then c.status else s.lastStatus)
      && s'.lastPct == (if Done(s') > s.lastPct then Done(s') else s.lastPct)
      && story.events ==
         (if c.status.Some? && c.status != s.lastStatus then [Status(c.status.value)] else []) +
         (if Done(s') > s.lastPct then [Progress(CompletedSum(s'.layers), TotalSum(s'.layers))] else [])
  {
    Padded(a, json, b);
    var c := parse(json).value;
    if c.digest.Some? { UpsertReports(s.layers, c); }
    NothingReported(s.layers, c);
    hide TrimAscii, Upsert, Find, TotalSum, CompletedSum, Reported, Contains;
  }

  // ---- What has been shown ------------------------------------------------------------------

  /** Nothing is held back: what was shown last is at least what is done now, and was shown in a progress event. */
  ghost predicate AllShown(s: State, events: seq<Event>, floor: int) {
    && Done(s) <= s.lastPct
    && (s.lastPct > floor ==>
          exists i | 0 <= i < |events| ::
            events[i].Progress? && events[i].total > 0 && events[i].completed * 100 / events[i].total == s.lastPct)
  }

  lemma LineShows(parse: string -> Option<PullChunk>, s: State, line: string)
    requires Done(s) <= s.lastPct && s.lastPct >= -1
    ensures
      var story := ReadLine(parse, s, line);
      && (story.end.None? ==> AllShown(story.state, story.events, s.lastPct))
      && story.state.lastPct >= s.lastPct
  {
    hide TrimAscii, Upsert, TotalSum, CompletedSum, Contains;
    var trimmed := TrimAscii(line);
    if trimmed != "" && parse(trimmed).Some? && parse(trimmed).value.error.None? &&
       parse(trimmed).value.status != Some("success") {
      NotedShows(s, parse(trimmed).value);
    }
  }

  lemma NotedShows(s: State, c: PullChunk)
    requires s.lastPct >= -1 && c.error.None? && c.status != Some("success")
    ensures
      var story := Read(s, c);
      AllShown(story.state, story.events, s.lastPct) && story.state.lastPct >= s.lastPct
  {
    hide Upsert, TotalSum, CompletedSum, Contains;
    var story := Read(s, c);
    if story.state.lastPct > s.lastPct {
      var last := |story.events| - 1;
      assert story.events[last] == Progress(CompletedSum(story.state.layers), TotalSum(story.state.layers));
    }
  }

  lemma ShownLater(first: seq<Event>, mid: int, s: State, rest: seq<Event>, floor: int)
    requires AllShown(s, rest, mid) && floor <= mid <= s.lastPct
    requires mid > floor ==>
               exists i | 0 <= i < |first| ::
                 first[i].Progress? && first[i].total > 0 && first[i].completed * 100 / first[i].total == mid
    ensures AllShown(s, first + rest, floor)
  {
    var all := first + rest;
    if s.lastPct > mid {
      var i :| 0 <= i < |rest| && rest[i].Progress? && rest[i].total > 0 &&
               rest[i].completed * 100 / rest[i].total == s.lastPct;
      assert all[|first| + i] == rest[i];
    } else if mid > floor {
      var i :| 0 <= i < |first| && first[i].Progress? && first[i].total > 0 &&
               first[i].completed * 100 / first[i].total == mid;
      assert all[i] == first[i];
    }
  }

  /** As long as no line has ended the attempt, the percentage reached has been shown. */
  lemma {:induction false} NothingIsHeldBack(parse: string -> Option<PullChunk>, s: State, lines: seq<string>)
    requires Done(s) <= s.lastPct && s.lastPct >= -1 && StoryOf(parse, s, lines).end.None?
    ensures
      var story := StoryOf(parse, s, lines);
      AllShown(story.state, story.events, s.lastPct) && story.state.lastPct >= s.lastPct
    decreases |lines|
  {
    hide Done, ReadLine;
    if lines != [] {
      var first := ReadLine(parse, s, lines[0]);
      LineShows(parse, s, lines[0]);
      assert Done(first.state) <= first.state.lastPct;
      NothingIsHeldBack(parse, first.state, lines[1..]);
      var rest := StoryOf(parse, first.state, lines[1..]);
      ShownLater(first.events, first.state.lastPct, rest.state, rest.events, s.lastPct);
    }
  }

  // ---- One attempt --------------------------------------------------------------------------

  /** Without a line that ends it, an attempt is worth another one, unless it was cancelled or the server refused it. */
  lemma AttemptEnds(parse: string -> Option<PullChunk>, connection: Connection)
    requires connection.Open? ==> StoryOf(parse, State([], None, -1), Lines(BytesOf(connection.items))).end.None?
    ensures
      var (events, end) := Attempted(parse, connection);
      && (end == AttemptCancelled <==>
            connection.CancelledFirst? || (connection.Open? && StopOf(connection.items) == CancelledThen))
      && (end == PermanentFailed <==> connection == BadStatus(false))
      && end != AttemptCompleted
      && events ==
         if connection.Open? then StoryOf(parse, State([], None, -1), Lines(BytesOf(connection.items))).events else []
  {
    if connection.Open? {
      StoryShape(parse, FRESH, Lines(BytesOf(connection.items)));
    }
    hide StoryOf, BytesOf, StopOf, Lines;
  }

  // ---- The whole pull -----------------------------------------------------------------------

  /** The events of the attempts from `i` to `n`, each after the first announced. */
  function Tale(told: nat -> seq<Event>, i: nat, n: nat): seq<Event>
    requires i <= n
    decreases n - i
  {
    if i == n then told(i) else told(i) + [Retrying(i + 1)] + Tale(told, i + 1, n)
  }

  lemma Behind(a: seq<Event>, b: seq<Event>, more: seq<Event>)
    ensures a + (b + more) == (a + b) + more && a + [] == a
  {
  }

  lemma {:induction false} TellsFrom(parse: string -> Option<PullChunk>, worlds: nat -> Connection,
                                     waits: nat -> bool, i: nat)
    requires 1 <= i <= 3
    ensures
      var pull := PulledFrom(parse, worlds, waits, i);
      var n, last := pull.attempts, Attempted(parse, worlds(pull.attempts)).1;
      && i <= n <= 3
      && pull.events == Tale((k: nat) => Attempted(parse, worlds(k)).0, i, n) + Closing(last, n)
      && pull.outcome == Verdict(last, n)
      && (last == TransientFailed ==> n == 3 || waits(n))
      && forall k | i <= k < n :: Attempted(parse, worlds(k)).1 == TransientFailed && !waits(k)
    decreases 3 - i
  {
    hide Attempted;
    var (events, end) := Attempted(parse, worlds(i));
    Behind(events, [], []);
    assert [Retrying(i + 1)] + [Cancelled] == [Retrying(i + 1), Cancelled];
    if end == TransientFailed && i < 3 && !waits(i) {
      TellsFrom(parse, worlds, waits, i + 1);
      var pull := PulledFrom(parse, worlds, waits, i + 1);
      var last := Attempted(parse, worlds(pull.attempts)).1;
      Behind(events + [Retrying(i + 1)], Tale((k: nat) => Attempted(parse, worlds(k)).0, i + 1, pull.attempts),
             Closing(last, pull.attempts));
    } else {
      Behind(events, [Retrying(i + 1)], [Cancelled]);
    }
  }

  /** What is told behind the last attempt. */
  function Closing(last: Attempt, n: nat): seq<Event> {
    match last
    case AttemptCompleted => []
    case AttemptCancelled => []
    case PermanentFailed => [Failed]
    case TransientFailed => if n >= 3 then [Failed] else [Retrying(n + 1), Cancelled]
  }

  function Verdict(last: Attempt, n: nat): Outcome {
    match last
    case AttemptCompleted => PullCompleted
    case AttemptCancelled => PullCancelled
    case PermanentFailed => PullFailed
    case TransientFailed => if n >= 3 then PullFailed else PullCancelled
  }

  /**
    A pull tells everything its attempts told, announcing each new one; it is tried again after every transient failure
    but the third, unless the caller cancels during the wait, and after nothing else.
   */
  lemma PullTells(parse: string -> Option<PullChunk>, worlds: nat -> Connection, waits: nat -> bool)
    ensures
      var pull := PulledFrom(parse, worlds, waits, 1);
      var n, last := pull.attempts, Attempted(parse, worlds(pull.attempts)).1;
      && 1 <= n <= 3
      && pull.events == Tale((k: nat) => Attempted(parse, worlds(k)).0, 1, n) + Closing(last, n)
      && pull.outcome == Verdict(last, n)
      && (last == TransientFailed ==> n == 3 || waits(n))
      && forall k | 1 <= k < n :: Attempted(parse, worlds(k)).1 == TransientFailed && !waits(k)
  {
    hide Attempted;
    TellsFrom(parse, worlds, waits, 1);
  }
}
