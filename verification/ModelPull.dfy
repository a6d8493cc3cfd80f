/**
  Pulling a model with Ollama: progress is summed over layers that are reported in any order, and transient failures
  are tried again.
*/
module ModelPull {
  import opened Text
  import opened LineStream

  datatype Event =
    | Status(text: string)
    | Progress(completed: nat, total: nat)
    | Retrying(attempt: nat)
    | Completed
    | Cancelled
    | Failed

  datatype Attempt = AttemptCompleted | AttemptCancelled | PermanentFailed | TransientFailed

  datatype Outcome = PullCompleted | PullCancelled | PullFailed

  /** A line of the pull stream. */
  datatype PullChunk = PullChunk(status: Option<string>, digest: Option<string>, total: Option<nat>,
                                 completed: Option<nat>, error: Option<string>)

  function Or(n: Option<nat>): nat {
    if n.Some? then n.value else 0
  }

  function Max(a: nat, b: nat): nat { if a < b then b else a }

  predicate OccursAt(s: string, needle: string, i: nat) {
    i + |needle| <= |s| && s[i..i + |needle|] == needle
  }

  predicate Contains(s: string, needle: string) {
    exists i | 0 <= i <= |s| :: OccursAt(s, needle, i)
  }

  // ---- Layers -------------------------------------------------------------------------------

  /** The largest numbers reported for a layer. */
  datatype Layer = Layer(digest: string, total: nat, completed: nat)

  function Upsert(layers: seq<Layer>, digest: string, total: nat, completed: nat): seq<Layer> {
    if layers == [] then [Layer(digest, total, completed)]
    else if layers[0].digest == digest then
      [Layer(digest, Max(layers[0].total, total), Max(layers[0].completed, completed))] + layers[1..]
    else [layers[0]] + Upsert(layers[1..], digest, total, completed)
  }

  function TotalSum(layers: seq<Layer>): nat {
    if layers == [] then 0 else layers[0].total + TotalSum(layers[1..])
  }

  function CompletedSum(layers: seq<Layer>): nat {
    if layers == [] then 0 else layers[0].completed + CompletedSum(layers[1..])
  }

  /** Whole per cent; more than a hundred if more is reported as completed than there is. */
  function Pct(completed: nat, total: nat): nat
    requires total > 0
  {
    completed * 100 / total
  }

  // ---- One line -----------------------------------------------------------------------------

  datatype State = State(layers: seq<Layer>, lastStatus: Option<string>, lastPct: int)

  const FRESH := State([], None, -1)

  /** The state after a line, the events it makes, and whether it ends the attempt. */
  datatype Story = Story(state: State, events: seq<Event>, end: Option<Attempt>)

  function Judged(error: string): Attempt {
    if Contains(error, "not found") || Contains(error, "does not exist") then PermanentFailed else TransientFailed
  }

  /** A progress event only when a whole per cent more is done than ever before. */
  function Noted(s: State): Story {
    var total, completed := TotalSum(s.layers), CompletedSum(s.layers);
    if total == 0 || Pct(completed, total) <= s.lastPct then Story(s, [], None)
    else Story(s.(lastPct := Pct(completed, total)), [Progress(completed, total)], None)
  }

  function Counted(s: State, c: PullChunk): State {
    if c.digest.Some? then s.(layers := Upsert(s.layers, c.digest.value, Or(c.total), Or(c.completed))) else s
  }

  function After(events: seq<Event>, s: Story): Story {
    s.(events := events + s.events)
  }

  function Read(s: State, c: PullChunk): Story {
    if c.error.Some? then Story(s, [], Some(Judged(c.error.value)))
    else
      var changed := c.status.Some? && s.lastStatus != c.status;
      var events := if changed then [Status(c.status.value)] else [];
      var s' := if changed then s.(lastStatus := c.status) else s;
      if c.status == Some("success") then Story(s', events + [Completed], Some(AttemptCompleted))
      else After(events, Noted(Counted(s', c)))
  }

  /** A line; blank ones and those that do not parse are skipped. */
  function ReadLine(parse: string -> Option<PullChunk>, s: State, line: string): Story {
    var trimmed := TrimAscii(line);
    if trimmed == "" || parse(trimmed).None? then Story(s, [], None) else Read(s, parse(trimmed).value)
  }

  /** Line after line, up to the one that ends the attempt. */
  function StoryOf(parse: string -> Option<PullChunk>, s: State, lines: seq<string>): Story
    decreases |lines|
  {
    if lines == [] then Story(s, [], None)
    else
      var first := ReadLine(parse, s, lines[0]);
      if first.end.Some? then first else After(first.events, StoryOf(parse, first.state, lines[1..]))
  }

  method AddLayer(layers: seq<Layer>, digest: string, total: nat, completed: nat) returns (r: seq<Layer>)
    ensures r == Upsert(layers, digest, total, completed)
  {
    hide Max;
    var i := 0;
    assert layers[0..] == layers && layers[..0] == [];
    while i < |layers|
      invariant 0 <= i <= |layers|
      invariant Upsert(layers, digest, total, completed) == layers[..i] + Upsert(layers[i..], digest, total, completed)
    {
      var layer := layers[i];
      UpsertStep(layers, i, digest, total, completed);
      if layer.digest == digest {
        return layers[i := Layer(digest, Max(layer.total, total), Max(layer.completed, completed))];
      }
      i := i + 1;
    }
    r := layers + [Layer(digest, total, completed)];
  }

  lemma UpsertStep(layers: seq<Layer>, i: nat, digest: string, total: nat, completed: nat)
    requires i < |layers|
    ensures
      var layer := layers[i];
      layers[..i] + Upsert(layers[i..], digest, total, completed) ==
      if layer.digest == digest then
        layers[i := Layer(digest, Max(layer.total, total), Max(layer.completed, completed))]
      else layers[..i + 1] + Upsert(layers[i + 1..], digest, total, completed)
  {
    assert layers[i..][0] == layers[i] && layers[i..][1..] == layers[i + 1..];
    assert layers[..i + 1] == layers[..i] + [layers[i]];
  }

  method HandleChunk(s: State, c: PullChunk) returns (s': State, events: seq<Event>, end: Option<Attempt>)
    ensures Story(s', events, end) == Read(s, c)
  {
    hide Upsert, TotalSum, CompletedSum, Contains;
    s', events, end := s, [], None;
    if c.error.Some? {
      return s, [], Some(Judged(c.error.value));
    }
    if c.status.Some? {
      if s'.lastStatus != c.status {
        events := events + [Status(c.status.value)];
        s' := s'.(lastStatus := c.status);
      }
      if c.status.value == "success" {
        return s', events + [Completed], Some(AttemptCompleted);
      }
    }
    if c.digest.Some? {
      var layers := AddLayer(s'.layers, c.digest.value, Or(c.total), Or(c.completed));
      s' := s'.(layers := layers);
    }
    var totalSum, completedSum := TotalSum(s'.layers), CompletedSum(s'.layers);
    if totalSum == 0 {
      return;
    }
    var pct := completedSum * 100 / totalSum;
    if pct > s'.lastPct {
      events := events + [Progress(completedSum, totalSum)];
      s' := s'.(lastPct := pct);
    }
  }

  // ---- One attempt --------------------------------------------------------------------------

  datatype Connection = CancelledFirst | NoConnection | BadStatus(server: bool) | Open(items: seq<Item>)

  function Stopped(s: State, stop: Stop): Attempt {
    match stop
    case Eof => if s.lastStatus == Some("success") then AttemptCompleted else TransientFailed
    case BrokenOff => TransientFailed
    case CancelledThen => AttemptCancelled
  }

  /** The events and the outcome of an attempt, told from the concatenated bytes. */
  function Attempted(parse: string -> Option<PullChunk>, connection: Connection): (seq<Event>, Attempt) {
    match connection
    case CancelledFirst => ([], AttemptCancelled)
    case NoConnection => ([], TransientFailed)
    case BadStatus(server) => ([], if server then TransientFailed else PermanentFailed)
    case Open(items) =>
      var story := StoryOf(parse, FRESH, Lines(BytesOf(items)));
      if story.end.Some? then (story.events, story.end.value)
      else
        var end := Stopped(story.state, StopOf(items));
        (story.events + if end.AttemptCompleted? then [Completed] else [], end)
  }

  lemma LineRead(parse: string -> Option<PullChunk>, events: seq<Event>, s: State, line: string, rest: seq<string>)
    ensures
      var first := ReadLine(parse, s, line);
      After(events, StoryOf(parse, s, [line] + rest)) ==
      if first.end.Some? then After(events, first) else After(events + first.events, StoryOf(parse, first.state, rest))
  {
    hide ReadLine;
    assert ([line] + rest)[1..] == rest;
    var first := ReadLine(parse, s, line);
    var more := StoryOf(parse, first.state, rest);
    assert events + (first.events + more.events) == (events + first.events) + more.events;
  }

  lemma NoMoreLines(parse: string -> Option<PullChunk>, events: seq<Event>, s: State, buffer: string)
    requires '\n' !in buffer
    ensures After(events, StoryOf(parse, s, Lines(buffer + ""))) == Story(s, events, None)
  {
    assert buffer + "" == buffer && events + [] == events;
  }

  method DrainLines(parse: string -> Option<PullChunk>, buffer: string, s: State, events: seq<Event>,
                    ghost rest: string)
    returns (buffer': string, s': State, events': seq<Event>, end: Option<Attempt>)
    ensures
      var story := After(events, StoryOf(parse, s, Lines(buffer + rest)));
      if end.Some? then story == Story(s', events', end)
      else '\n' !in buffer' && story == After(events', StoryOf(parse, s', Lines(buffer' + rest)))
  {
    hide StoryOf, Lines, Read, TrimAscii;
    buffer', s', events' := buffer, s, events;
    var pos := Newline(buffer');
    while pos.Some?
      invariant pos == Newline(buffer')
      invariant After(events', StoryOf(parse, s', Lines(buffer' + rest))) ==
                After(events, StoryOf(parse, s, Lines(buffer + rest)))
      decreases |buffer'|
    {
      var line := buffer'[..pos.value];
      FirstLine(buffer', rest, pos.value);
      buffer' := buffer'[pos.value + 1..];
      pos := Newline(buffer');
      LineRead(parse, events', s', line, Lines(buffer' + rest));
      NothingMore(events');
      var trimmed := TrimAscii(line);
      if trimmed == "" {
        continue;
      }
      var chunk := parse(trimmed);
      if chunk.None? {
        continue;
      }
      var more;
      s', more, end := HandleChunk(s', chunk.value);
      events' := events' + more;
      if end.Some? {
        return;
      }
    }
    end := None;
  }

  lemma NothingMore(events: seq<Event>)
    ensures events + [] == events
  {
  }

  method PullAttempt(parse: string -> Option<PullChunk>,
                     connection: Connection) returns (events: seq<Event>, end: Attempt)
    ensures (events, end) == Attempted(parse, connection)
  {
    hide StoryOf, Lines, BytesOf, StopOf, After;
    match connection {
      case CancelledFirst => return [], AttemptCancelled;
      case NoConnection => return [], TransientFailed;
      case BadStatus(server) => return [], if server then TransientFailed else PermanentFailed;
      case Open(_) =>
    }
    var items := connection.items;
    var s, buffer := FRESH, "";
    events := [];
    ghost var story := StoryOf(parse, FRESH, Lines(BytesOf(items)));
    var i := 0;
    AtFirst(story, items);
    while i < |items|
      invariant 0 <= i <= |items| && '\n' !in buffer
      invariant story == After(events, StoryOf(parse, s, Lines(buffer + BytesOf(items[i..]))))
      invariant StopOf(items) == StopOf(items[i..])
    {
      NextBytes(items, i, buffer);
      NothingMore(events);
      if items[i].Bytes? {
        var ended;
        buffer, s, events, ended := DrainLines(parse, buffer + items[i].bytes, s, events, BytesOf(items[i + 1..]));
        if ended.Some? {
          return events, ended.value;
        }
      } else {
        NoMoreLines(parse, events, s, buffer);
        return events, if items[i].Broken? then TransientFailed else AttemptCancelled;
      }
      i := i + 1;
    }
    AtEof(items, i);
    NoMoreLines(parse, events, s, buffer);
    NothingMore(events);
    if s.lastStatus == Some("success") {
      return events + [Completed], AttemptCompleted;
    }
    end := TransientFailed;
  }

  lemma AtFirst(story: Story, items: seq<Item>)
    ensures After([], story) == story && items[0..] == items && "" + BytesOf(items) == BytesOf(items)
  {
    assert [] + story.events == story.events;
  }

  lemma AtEof(items: seq<Item>, i: nat)
    requires i == |items|
    ensures BytesOf(items[i..]) == "" && StopOf(items[i..]) == Eof
  {
  }

  // ---- The whole pull -----------------------------------------------------------------------

  const MAX_ATTEMPTS: nat := 3

  datatype Pull = Pull(events: seq<Event>, outcome: Outcome, attempts: nat)

  /** Attempts from number `n` on; `waits(n)` tells whether the caller cancels during the wait behind attempt `n`. */
  function PulledFrom(parse: string -> Option<PullChunk>, worlds: nat -> Connection, waits: nat -> bool, n: nat): Pull
    requires 1 <= n <= MAX_ATTEMPTS
    decreases MAX_ATTEMPTS - n
  {
    var (events, end) := Attempted(parse, worlds(n));
    match end
    case AttemptCompleted => Pull(events, PullCompleted, n)
    case AttemptCancelled => Pull(events, PullCancelled, n)
    case PermanentFailed => Pull(events + [Failed], PullFailed, n)
    case TransientFailed =>
      if n >= MAX_ATTEMPTS then Pull(events + [Failed], PullFailed, n)
      else if waits(n) then Pull(events + [Retrying(n + 1)] + [Cancelled], PullCancelled, n)
      else
        var rest := PulledFrom(parse, worlds, waits, n + 1);
        Pull(events + [Retrying(n + 1)] + rest.events, rest.outcome, rest.attempts)
  }

  method PullModelStream(parse: string -> Option<PullChunk>, worlds: nat -> Connection,
                         waits: nat -> bool) returns (pull: Pull)
    ensures pull == PulledFrom(parse, worlds, waits, 1)
  {
    hide Attempted;
    var events: seq<Event> := [];
    var n := 1;
    while true
      invariant 1 <= n <= MAX_ATTEMPTS
      invariant
        var rest := PulledFrom(parse, worlds, waits, n);
        PulledFrom(parse, worlds, waits, 1) == rest.(events := events + rest.events)
      decreases MAX_ATTEMPTS - n
    {
      var more, end := PullAttempt(parse, worlds(n));
      PulledStep(events, more, n, PulledFrom(parse, worlds, waits, if n < MAX_ATTEMPTS then n + 1 else n).events);
      events := events + more;
      match end {
        case AttemptCompleted => return Pull(events, PullCompleted, n);
        case AttemptCancelled => return Pull(events, PullCancelled, n);
        case PermanentFailed => return Pull(events + [Failed], PullFailed, n);
        case TransientFailed =>
          if n >= MAX_ATTEMPTS {
            return Pull(events + [Failed], PullFailed, n);
          }
          events := events + [Retrying(n + 1)];
          if waits(n) {
            return Pull(events + [Cancelled], PullCancelled, n);
          }
      }
      n := n + 1;
    }
  }

  lemma PulledStep(events: seq<Event>, more: seq<Event>, n: nat, rest: seq<Event>)
    ensures events + (more + [Failed]) == (events + more) + [Failed]
    ensures events + (more + [Retrying(n + 1)] + [Cancelled]) == (events + more) + [Retrying(n + 1)] + [Cancelled]
    ensures events + (more + [Retrying(n + 1)] + rest) == (events + more) + [Retrying(n + 1)] + rest
    ensures [] + events == events
  {
  }

  // ---- Layers are maxima --------------------------------------------------------------------

  datatype Report = Report(digest: string, total: nat, completed: nat)

  /** The layers after some reports. */
  function Table(reports: seq<Report>): seq<Layer> {
    if reports == [] then []
    else
      var n := |reports| - 1;
      Upsert(Table(reports[..n]), reports[n].digest, reports[n].total, reports[n].completed)
  }

  /** The reports in the lines of an attempt, up to the one that ends it. */
  function ReportsOf(parse: string -> Option<PullChunk>, lines: seq<string>): seq<Report> {
    if lines == [] then []
    else
      var trimmed := TrimAscii(lines[0]);
      if trimmed == "" || parse(trimmed).None? then ReportsOf(parse, lines[1..])
      else
        var c := parse(trimmed).value;
        if c.error.Some? || c.status == Some("success") then []
        else
          (if c.digest.Some? then [Report(c.digest.value, Or(c.total), Or(c.completed))] else []) +
          ReportsOf(parse, lines[1..])
  }

  lemma TableNext(seen: seq<Report>, r: Report)
    ensures Table(seen + [r]) == Upsert(Table(seen), r.digest, r.total, r.completed)
  {
    assert (seen + [r])[..|seen|] == seen;
  }

  lemma SeenNext(seen: seq<Report>, r: Report, rest: seq<Report>)
    ensures seen + ([r] + rest) == (seen + [r]) + rest && seen + [] == seen && [] + rest == rest
  {
  }

  /** The layers of an attempt are the table of all reports so far. */
  lemma {:induction false} StoryTable(parse: string -> Option<PullChunk>, s: State, seen: seq<Report>,
                                      lines: seq<string>)
    requires s.layers == Table(seen)
    ensures StoryOf(parse, s, lines).state.layers == Table(seen + ReportsOf(parse, lines))
    decreases |lines|
  {
    hide Table, Upsert, TotalSum, CompletedSum, TrimAscii, Contains, Pct;
    if lines == [] {
      assert seen + [] == seen;
    } else {
      var trimmed := TrimAscii(lines[0]);
      var first := ReadLine(parse, s, lines[0]);
      assert seen + [] == seen;
      if trimmed == "" || parse(trimmed).None? {
        StoryTable(parse, s, seen, lines[1..]);
      } else if first.end.None? {
        var c := parse(trimmed).value;
        var rest := ReportsOf(parse, lines[1..]);
        if c.digest.Some? {
          var r := Report(c.digest.value, Or(c.total), Or(c.completed));
          TableNext(seen, r);
          SeenNext(seen, r, rest);
          StoryTable(parse, first.state, seen + [r], lines[1..]);
        } else {
          assert [] + rest == rest;
          StoryTable(parse, first.state, seen, lines[1..]);
        }
      }
    }
  }

  function Find(layers: seq<Layer>, digest: string): Option<Layer> {
    if layers == [] then None else if layers[0].digest == digest then Some(layers[0]) else Find(layers[1..], digest)
  }

  predicate Distinct(layers: seq<Layer>) {
    layers != [] ==> Find(layers[1..], layers[0].digest).None? && Distinct(layers[1..])
  }

  lemma {:induction false} UpsertFinds(layers: seq<Layer>, digest: string, total: nat, completed: nat, d: string)
    ensures
      var before := Find(layers, d);
      Find(Upsert(layers, digest, total, completed), d) ==
      if d != digest then before
      else if before.Some? then Some(Layer(d, Max(before.value.total, total), Max(before.value.completed, completed)))
      else Some(Layer(d, total, completed))
  {
    if layers != [] && layers[0].digest != digest {
      UpsertFinds(layers[1..], digest, total, completed, d);
    }
  }

  lemma {:induction false} UpsertDistinct(layers: seq<Layer>, digest: string, total: nat, completed: nat)
    requires Distinct(layers)
    ensures Distinct(Upsert(layers, digest, total, completed))
  {
    if layers != [] && layers[0].digest != digest {
      UpsertDistinct(layers[1..], digest, total, completed);
      UpsertFinds(layers[1..], digest, total, completed, layers[0].digest);
    }
  }

  /** `m` is the largest total, and the largest number completed, reported for `d`. */
  ghost predicate IsMaximum(reports: seq<Report>, d: string, m: Option<Layer>) {
    if m.None? then forall r | r in reports :: r.digest != d
    else
      && m.value.digest == d
      && (forall r | r in reports && r.digest == d :: r.total <= m.value.total && r.completed <= m.value.completed)
      && (exists r | r in reports :: r.digest == d && r.total == m.value.total)
      && (exists r | r in reports :: r.digest == d && r.completed == m.value.completed)
  }

  /** The table holds, for each digest, the maxima of all its reports; no digest twice. */
  lemma {:induction false} TableHoldsMaxima(reports: seq<Report>, d: string)
    ensures IsMaximum(reports, d, Find(Table(reports), d)) && Distinct(Table(reports))
  {
    if reports != [] {
      var n := |reports| - 1;
      var r := reports[n];
      TableHoldsMaxima(reports[..n], d);
      UpsertFinds(Table(reports[..n]), r.digest, r.total, r.completed, d);
      UpsertDistinct(Table(reports[..n]), r.digest, r.total, r.completed);
      MaximumGrows(reports[..n], r, d, Find(Table(reports[..n]), d), Find(Table(reports), d));
      assert reports == reports[..n] + [r];
    }
  }

  lemma MaximumGrows(reports: seq<Report>, r: Report, d: string, m: Option<Layer>, m': Option<Layer>)
    requires IsMaximum(reports, d, m)
    requires
      m' == if d != r.digest then m
            else if m.Some? then Some(Layer(d, Max(m.value.total, r.total), Max(m.value.completed, r.completed)))
            else Some(Layer(d, r.total, r.completed))
    ensures IsMaximum(reports + [r], d, m')
  {
    var more := reports + [r];
    assert forall x :: x in more <==> x in reports || x == r;
  }

  lemma MaximumIsUnique(a: seq<Report>, b: seq<Report>, d: string, m: Option<Layer>, m': Option<Layer>)
    requires IsMaximum(a, d, m) && IsMaximum(b, d, m') && forall r :: r in a <==> r in b
    ensures m == m'
  {
  }

  function Without(layers: seq<Layer>, d: string): seq<Layer> {
    if layers == [] then [] else if layers[0].digest == d then layers[1..] else [layers[0]] + Without(layers[1..], d)
  }

  lemma {:induction false} WithoutLayer(layers: seq<Layer>, d: string)
    requires Distinct(layers) && Find(layers, d).Some?
    ensures
      var layer, rest := Find(layers, d).value, Without(layers, d);
      && TotalSum(layers) == layer.total + TotalSum(rest)
      && CompletedSum(layers) == layer.completed + CompletedSum(rest)
      && Find(rest, d).None?
  {
    if layers[0].digest != d {
      WithoutLayer(layers[1..], d);
    }
  }

  lemma {:induction false} WithoutFinds(layers: seq<Layer>, d: string, e: string)
    requires d != e
    ensures Find(Without(layers, d), e) == Find(layers, e)
  {
    if layers != [] && layers[0].digest != d {
      WithoutFinds(layers[1..], d, e);
    }
  }

  lemma {:induction false} WithoutDistinct(layers: seq<Layer>, d: string)
    requires Distinct(layers)
    ensures Distinct(Without(layers, d))
  {
    if layers != [] && layers[0].digest != d {
      WithoutDistinct(layers[1..], d);
      WithoutFinds(layers[1..], d, layers[0].digest);
    }
  }

  lemma FirstIsFound(layers: seq<Layer>)
    ensures layers == [] || Find(layers, layers[0].digest).Some?
  {
  }

  /** Tables that hold the same layers have the same sums. */
  lemma {:induction false} SameLayersSameSums(a: seq<Layer>, b: seq<Layer>)
    requires Distinct(a) && Distinct(b) && forall d :: Find(a, d) == Find(b, d)
    ensures TotalSum(a) == TotalSum(b) && CompletedSum(a) == CompletedSum(b)
    decreases |a|
  {
    if a == [] {
      FirstIsFound(b);
    } else {
      var d := a[0].digest;
      assert Find(a, d) == Some(a[0]);
      WithoutLayer(b, d);
      WithoutDistinct(b, d);
      forall e ensures Find(a[1..], e) == Find(Without(b, d), e) {
        if e != d { WithoutFinds(b, d, e); }
      }
      SameLayersSameSums(a[1..], Without(b, d));
    }
  }

  /** In whatever order, and however often, the same reports come: the layers and both sums are the same. */
  lemma OrderDoesNotMatter(a: seq<Report>, b: seq<Report>)
    requires forall r :: r in a <==> r in b
    ensures forall d :: Find(Table(a), d) == Find(Table(b), d)
    ensures TotalSum(Table(a)) == TotalSum(Table(b)) && CompletedSum(Table(a)) == CompletedSum(Table(b))
  {
    hide Find, Table, IsMaximum, Distinct, TotalSum, CompletedSum;
    TableHoldsMaxima(a, "");
    TableHoldsMaxima(b, "");
    forall d ensures Find(Table(a), d) == Find(Table(b), d) {
      TableHoldsMaxima(a, d);
      TableHoldsMaxima(b, d);
      MaximumIsUnique(a, b, d, Find(Table(a), d), Find(Table(b), d));
    }
    SameLayersSameSums(Table(a), Table(b));
  }

  lemma {:induction false} SumsGrow(layers: seq<Layer>, digest: string, total: nat, completed: nat)
    ensures TotalSum(layers) <= TotalSum(Upsert(layers, digest, total, completed))
    ensures CompletedSum(layers) <= CompletedSum(Upsert(layers, digest, total, completed))
  {
    if layers != [] && layers[0].digest != digest {
      SumsGrow(layers[1..], digest, total, completed);
    }
  }

  // ---- Progress -----------------------------------------------------------------------------

  /** Every progress event above the floor, each above the one before, and the state's floor is the last. */
  ghost predicate Climbs(events: seq<Event>, floor: int, last: int) {
    && floor <= last
    && (forall i | 0 <= i < |events| && events[i].Progress? ::
          events[i].total > 0 && floor < Pct(events[i].completed, events[i].total) <= last)
    && (forall i, j | 0 <= i < j < |events| && events[i].Progress? && events[j].Progress? ::
          events[i].total > 0 && events[j].total > 0 &&
          Pct(events[i].completed, events[i].total) < Pct(events[j].completed, events[j].total))
  }

  lemma ClimbsOn(a: seq<Event>, b: seq<Event>, floor: int, mid: int, last: int)
    requires Climbs(a, floor, mid) && Climbs(b, mid, last)
    ensures Climbs(a + b, floor, last)
  {
    hide Pct;
    var c := a + b;
    assert forall i | |a| <= i < |c| :: c[i] == b[i - |a|];
    assert forall i | 0 <= i < |a| :: c[i] == a[i];
  }

  lemma ReadClimbs(s: State, c: PullChunk)
    ensures Climbs(Read(s, c).events, s.lastPct, Read(s, c).state.lastPct)
    ensures
      var s' := Read(s, c).state;
      TotalSum(s.layers) <= TotalSum(s'.layers) && CompletedSum(s.layers) <= CompletedSum(s'.layers)
  {
    hide TotalSum, CompletedSum, Upsert, Contains, Pct;
    if c.digest.Some? {
      SumsGrow(s.layers, c.digest.value, Or(c.total), Or(c.completed));
    }
  }

  /** Within an attempt both sums never decrease, and each progress event shows more per cent than all before it. */
  lemma {:induction false} StoryClimbs(parse: string -> Option<PullChunk>, s: State, lines: seq<string>)
    ensures
      var story := StoryOf(parse, s, lines);
      && Climbs(story.events, s.lastPct, story.state.lastPct)
      && TotalSum(s.layers) <= TotalSum(story.state.layers)
      && CompletedSum(s.layers) <= CompletedSum(story.state.layers)
    decreases |lines|
  {
    hide Climbs, Read, TotalSum, CompletedSum, TrimAscii;
    NothingClimbs(s.lastPct);
    if lines != [] {
      var trimmed := TrimAscii(lines[0]);
      var first := ReadLine(parse, s, lines[0]);
      if trimmed != "" && parse(trimmed).Some? {
        ReadClimbs(s, parse(trimmed).value);
      }
      if first.end.None? {
        StoryClimbs(parse, first.state, lines[1..]);
        var rest := StoryOf(parse, first.state, lines[1..]);
        ClimbsOn(first.events, rest.events, s.lastPct, first.state.lastPct, rest.state.lastPct);
      }
    }
  }

  lemma NothingClimbs(floor: int)
    ensures Climbs([], floor, floor)
  {
  }

  lemma PctBounds(c: nat, t: nat)
    requires t > 0
    ensures Pct(c, t) * t <= c * 100 < (Pct(c, t) + 1) * t
  {
  }

  lemma Shuffle(a: nat, b: nat, k: nat)
    ensures (a * k) * b == (a * b) * k
  {
  }

  /** A larger whole percentage is a larger exact ratio. */
  lemma LargerPctLargerRatio(c1: nat, t1: nat, c2: nat, t2: nat)
    requires t1 > 0 && t2 > 0 && Pct(c1, t1) < Pct(c2, t2)
    ensures c1 * t2 < c2 * t1
  {
    var p, q := Pct(c1, t1), Pct(c2, t2);
    PctBounds(c1, t1);
    PctBounds(c2, t2);
    hide Pct;
    TimesStrict(c1 * 100, (p + 1) * t1, t2);
    Shuffle(p + 1, t2, t1);
    Times(p + 1, q, t2);
    Times((p + 1) * t2, c2 * 100, t1);
    Shuffle(c1, t2, 100);
    Shuffle(c2, t1, 100);
  }

  lemma Times(a: nat, b: nat, k: nat)
    requires a <= b
    ensures a * k <= b * k
  {
  }

  lemma TimesStrict(a: nat, b: nat, k: nat)
    requires a < b && k > 0
    ensures a * k < b * k
  {
  }

  /** The exact ratios completed/total shown within an attempt strictly increase, even when new layers are announced. */
  lemma RatiosIncrease(parse: string -> Option<PullChunk>, connection: Connection, i: nat, j: nat)
    requires i < j < |Attempted(parse, connection).0|
    requires Attempted(parse, connection).0[i].Progress? && Attempted(parse, connection).0[j].Progress?
    ensures
      var a, b := Attempted(parse, connection).0[i], Attempted(parse, connection).0[j];
      a.completed * b.total < b.completed * a.total
  {
    hide StoryOf, BytesOf, StopOf, Lines, Pct;
    var lines := Lines(BytesOf(connection.items));
    StoryClimbs(parse, FRESH, lines);
    var events := StoryOf(parse, FRESH, lines).events;
    var a, b := events[i], events[j];
    LargerPctLargerRatio(a.completed, a.total, b.completed, b.total);
  }

  // ---- Attempts -----------------------------------------------------------------------------

  predicate Terminal(e: Event) { e.Completed? || e.Cancelled? || e.Failed? }

  predicate Quiet(events: seq<Event>) {
    forall e | e in events :: !Terminal(e)
  }

  /** No terminal event, or one of the kind `last` at the end. */
  predicate EndsWith(events: seq<Event>, last: Event) {
    |events| > 0 && events[|events| - 1] == last && Quiet(events[..|events| - 1])
  }

  lemma QuietConcat(a: seq<Event>, b: seq<Event>)
    ensures Quiet(a) && Quiet(b) ==> Quiet(a + b)
    ensures forall last :: Quiet(a) && EndsWith(b, last) ==> EndsWith(a + b, last)
  {
    if b != [] {
      assert (a + b)[..|a + b| - 1] == a + b[..|b| - 1];
    }
  }

  lemma ReadShape(s: State, c: PullChunk)
    ensures
      var story := Read(s, c);
      if story.end == Some(AttemptCompleted) then EndsWith(story.events, Completed)
      else Quiet(story.events) && story.end != Some(AttemptCancelled)
    ensures s.lastStatus != Some("success") && Read(s, c).end.None? ==> Read(s, c).state.lastStatus != Some("success")
  {
    hide TotalSum, CompletedSum, Upsert, Contains, Pct, EndsWith, Quiet;
    var changed := c.status.Some? && s.lastStatus != c.status;
    var events := if changed then [Status(c.status.value)] else [];
    var s' := if changed then s.(lastStatus := c.status) else s;
    StatusIsQuiet(events);
    NotedIsQuiet(Counted(s', c));
    QuietConcat(events, Noted(Counted(s', c)).events);
    OneMore(events, Completed);
  }

  lemma StatusIsQuiet(events: seq<Event>)
    requires forall e | e in events :: e.Status?
    ensures Quiet(events) && Quiet([])
  {
  }

  lemma NotedIsQuiet(s: State)
    ensures Quiet(Noted(s).events) && Noted(s).end.None? && Noted(s).state.lastStatus == s.lastStatus
  {
    hide TotalSum, CompletedSum, Pct;
  }

  lemma {:induction false} StoryShape(parse: string -> Option<PullChunk>, s: State, lines: seq<string>)
    requires s.lastStatus != Some("success")
    ensures
      var story := StoryOf(parse, s, lines);
      if story.end == Some(AttemptCompleted) then EndsWith(story.events, Completed)
      else Quiet(story.events) && story.end != Some(AttemptCancelled)
    ensures StoryOf(parse, s, lines).end.None? ==> StoryOf(parse, s, lines).state.lastStatus != Some("success")
    decreases |lines|
  {
    hide Read, TrimAscii, EndsWith;
    if lines != [] {
      var trimmed := TrimAscii(lines[0]);
      var first := ReadLine(parse, s, lines[0]);
      if trimmed != "" && parse(trimmed).Some? {
        ReadShape(s, parse(trimmed).value);
      }
      if first.end.None? {
        StoryShape(parse, first.state, lines[1..]);
        QuietConcat(first.events, StoryOf(parse, first.state, lines[1..]).events);
      }
    }
  }

  /** An attempt ends with the Completed event if and only if it completed; it makes no other terminal event. */
  lemma AttemptShape(parse: string -> Option<PullChunk>, connection: Connection)
    ensures
      var (events, end) := Attempted(parse, connection);
      if end.AttemptCompleted? then EndsWith(events, Completed) else Quiet(events)
  {
    if connection.Open? {
      StoryShape(parse, FRESH, Lines(BytesOf(connection.items)));
    }
    hide StoryOf, BytesOf, StopOf, Lines;
  }

  lemma ThreeParts(a: seq<Event>, e: Event, b: seq<Event>)
    requires Quiet(a) && !Terminal(e)
    ensures Quiet(a + [e]) && (Quiet(b) ==> Quiet(a + [e] + b))
    ensures forall last :: EndsWith(b, last) ==> EndsWith(a + [e] + b, last)
  {
    QuietConcat(a, [e]);
    QuietConcat(a + [e], b);
  }

  lemma OneMore(a: seq<Event>, last: Event)
    requires Quiet(a)
    ensures EndsWith(a + [last], last)
  {
    assert (a + [last])[..|a|] == a;
  }

  lemma {:induction false} PulledShape(parse: string -> Option<PullChunk>, worlds: nat -> Connection,
                                       waits: nat -> bool, n: nat)
    requires 1 <= n <= MAX_ATTEMPTS
    ensures
      var pull := PulledFrom(parse, worlds, waits, n);
      && n <= pull.attempts <= MAX_ATTEMPTS
      && (forall k | n <= k < pull.attempts :: Attempted(parse, worlds(k)).1 == TransientFailed && !waits(k))
      && match pull.outcome
         case PullCompleted => EndsWith(pull.events, Completed)
         case PullFailed => EndsWith(pull.events, Failed)
         case PullCancelled =>
           var last := Attempted(parse, worlds(pull.attempts)).1;
           if last == AttemptCancelled then Quiet(pull.events)
           else
             && last == TransientFailed && pull.attempts < MAX_ATTEMPTS && waits(pull.attempts)
             && EndsWith(pull.events, Cancelled)
    decreases MAX_ATTEMPTS - n
  {
    hide Attempted, EndsWith, Quiet;
    var (events, end) := Attempted(parse, worlds(n));
    AttemptShape(parse, worlds(n));
    if end.PermanentFailed? || end.TransientFailed? {
      OneMore(events, Failed);
      if n < MAX_ATTEMPTS && end.TransientFailed? {
        ThreeParts(events, Retrying(n + 1), []);
        OneMore(events + [Retrying(n + 1)], Cancelled);
        if !waits(n) {
          PulledShape(parse, worlds, waits, n + 1);
          ThreeParts(events, Retrying(n + 1), PulledFrom(parse, worlds, waits, n + 1).events);
        }
      }
    }
  }

  /**
    Over the whole pull: at most three attempts, each but the last a transient failure that was not cancelled while
    waiting; and at most one terminal event, the last one, which agrees with the outcome.  A pull cancelled within
    an attempt has no terminal event; one cancelled during the wait behind a transient failure has the Cancelled event.
   */
  lemma PullShape(parse: string -> Option<PullChunk>, worlds: nat -> Connection, waits: nat -> bool)
    ensures
      var pull := PulledFrom(parse, worlds, waits, 1);
      && 1 <= pull.attempts <= 3
      && (forall k | 1 <= k < pull.attempts :: Attempted(parse, worlds(k)).1 == TransientFailed && !waits(k))
      && (pull.outcome.PullCompleted? ==>
            EndsWith(pull.events, Completed) && Attempted(parse, worlds(pull.attempts)).1 == AttemptCompleted)
      && (pull.outcome.PullFailed? ==> EndsWith(pull.events, Failed))
      && (pull.outcome.PullCancelled? ==>
            var last := Attempted(parse, worlds(pull.attempts)).1;
            if last == AttemptCancelled then Quiet(pull.events)
            else
              && last == TransientFailed && pull.attempts < 3
              && waits(pull.attempts) && EndsWith(pull.events, Cancelled))
  {
    hide Attempted, EndsWith, Quiet;
    PulledShape(parse, worlds, waits, 1);
    LastAttempt(parse, worlds, waits, 1);
  }

  lemma {:induction false} LastAttempt(parse: string -> Option<PullChunk>, worlds: nat -> Connection,
                                       waits: nat -> bool, n: nat)
    requires 1 <= n <= MAX_ATTEMPTS
    ensures
      var pull := PulledFrom(parse, worlds, waits, n);
      pull.outcome.PullCompleted? <==> Attempted(parse, worlds(pull.attempts)).1 == AttemptCompleted
    decreases MAX_ATTEMPTS - n
  {
    hide Attempted;
    var (events, end) := Attempted(parse, worlds(n));
    if end.TransientFailed? && n < MAX_ATTEMPTS && !waits(n) {
      LastAttempt(parse, worlds, waits, n + 1);
    }
  }
}
