/**
  The resumable downloader: one attempt after another adds to a `.partial` file next to a running hash, and a file
  whose hash is the expected one is renamed to its final path.
*/
module Downloader {
  import opened Text

  newtype Byte = b: int | 0 <= b < 256

  type Bytes = seq<Byte>

  // ---- Errors -------------------------------------------------------------------------------

  datatype IoKind = TimedOut | Interrupted | WouldBlock | OtherKind

  datatype Error =
    | Http(timeout: bool, connect: bool, request: bool)
    | BadStatus(status: nat)
    | Io(kind: IoKind)
    | HashMismatch(expected: Bytes, actual: Bytes)
    | Cancelled
    | RetriesExhausted
    | InvalidRequest

  /** Only transient failures of the network or the disk, and answers 5xx, are worth another attempt. */
  predicate Retryable(e: Error) {
    match e
    case Http(timeout, connect, request) => timeout || connect || request
    case BadStatus(status) => 500 <= status < 600
    case Io(kind) => kind != OtherKind
    case _ => false
  }

  datatype Outcome = Done(bytes: nat, digest: Bytes, resumed: bool) | Failed(error: Error) | Killed

  predicate Retries(o: Outcome) { o.Failed? && Retryable(o.error) }

  // ---- The world of one attempt -------------------------------------------------------------

  /** What the body stream yields; the stream ends properly behind the last item. */
  datatype Item =
    | Data(chunk: Bytes)
    | ShortWrite(chunk: Bytes, written: nat, kind: IoKind)
    | Broken(timeout: bool, connect: bool, request: bool)
    | Cancel
    | Kill(chunk: Bytes, written: nat)

  datatype Response = NoResponse(timeout: bool, connect: bool, request: bool) | Response(status: nat, stream: seq<Item>)

  /**
    What an attempt meets: whether the metadata of an existing file can be read, the answer to a request for
    the bytes from an offset on, and the failures of the file system.
   */
  datatype World = World(metadata: bool, read: Option<IoKind>, respond: nat -> Response, create: Option<IoKind>,
                         open: Option<IoKind>, flush: Option<IoKind>, removed: bool, rename: nat -> Option<IoKind>)

  datatype Disk = Disk(partial: Option<Bytes>, final: Option<Bytes>)

  function Content(file: Option<Bytes>): Bytes {
    if file.Some? then file.value else []
  }

  // ---- The body stream ----------------------------------------------------------------------

  /** The bytes of the chunks before the first item that is not a plain chunk. */
  function Received(items: seq<Item>): Bytes {
    if items == [] || !items[0].Data? then [] else items[0].chunk + Received(items[1..])
  }

  function Stop(items: seq<Item>): (r: Option<Item>)
    ensures r.Some? ==> !r.value.Data?
  {
    if items == [] then None else if !items[0].Data? then Some(items[0]) else Stop(items[1..])
  }

  function Upto(chunk: Bytes, written: nat): Bytes {
    if written < |chunk| then chunk[..written] else chunk
  }

  /** What the interrupted last write left in the file. */
  function Torn(stop: Option<Item>): Bytes {
    match stop
    case Some(ShortWrite(chunk, written, _)) => Upto(chunk, written)
    case Some(Kill(chunk, written)) => Upto(chunk, written)
    case _ => []
  }

  function Broke(item: Item): Outcome
    requires !item.Data?
  {
    match item
    case ShortWrite(_, _, kind) => Failed(Io(kind))
    case Broken(timeout, connect, request) => Failed(Http(timeout, connect, request))
    case Cancel => Failed(Cancelled)
    case Kill(_, _) => Killed
  }

  predicate Plain(items: seq<Item>) {
    forall item | item in items :: item.Data?
  }

  lemma {:induction false} PlainPrefix(items: seq<Item>, i: nat)
    requires i <= |items| && Plain(items[..i])
    ensures Received(items) == Received(items[..i]) + Received(items[i..])
    ensures Stop(items) == Stop(items[i..])
  {
    if i == 0 {
      assert items[0..] == items;
    } else {
      PlainTail(items, i);
      PlainPrefix(items[1..], i - 1);
    }
  }

  lemma PlainTail(items: seq<Item>, i: nat)
    requires 0 < i <= |items| && Plain(items[..i])
    ensures items[0].Data? && Plain(items[1..][..i - 1])
    ensures items[..i][0] == items[0] && items[..i][1..] == items[1..][..i - 1] && items[1..][i - 1..] == items[i..]
  {
    assert items[..i][0] in items[..i];
    assert items[..i][1..] == items[1..][..i - 1];
    assert forall x | x in items[..i][1..] :: x in items[..i];
    assert items[1..][i - 1..] == items[i..];
  }

  /** One more plain chunk. */
  lemma NextChunk(items: seq<Item>, i: nat)
    requires i < |items| && Plain(items[..i]) && items[i].Data?
    ensures Plain(items[..i + 1]) && Received(items[..i + 1]) == Received(items[..i]) + items[i].chunk
  {
    var more := items[..i + 1];
    assert more == items[..i] + [items[i]] && more[..i] == items[..i] && more[i..] == [items[i]];
    PlainPrefix(more, i);
    assert [items[i]][1..] == [];
  }

  /** The item that stops the stream. */
  lemma StopsHere(items: seq<Item>, i: nat)
    requires i < |items| && Plain(items[..i]) && !items[i].Data?
    ensures Stop(items) == Some(items[i]) && Received(items) == Received(items[..i])
  {
    PlainPrefix(items, i);
  }

  // ---- One attempt --------------------------------------------------------------------------

  /** Where the attempt asks the server to go on. */
  function Resume(d: Disk, w: World): nat {
    if w.metadata then |Content(d.partial)| else 0
  }

  predicate Restarts(d: Disk, w: World) {
    Resume(d, w) > 0 && w.respond(Resume(d, w)).Response? && w.respond(Resume(d, w)).status != 206
  }

  /** The `.partial` file when the stream begins. */
  function Base(d: Disk, w: World): Bytes {
    if Restarts(d, w) then [] else Content(d.partial)
  }

  /** What the hasher has absorbed when the stream begins. */
  function Seed(d: Disk, w: World): Bytes {
    if Restarts(d, w) || Resume(d, w) == 0 then [] else Content(d.partial)
  }

  /** The hasher, the file and the byte counter. */
  datatype Progress = Progress(hashed: Bytes, file: Bytes, downloaded: nat)

  /** Their values after `i` plain chunks. */
  function LoopHead(seed: Bytes, base: Bytes, items: seq<Item>, i: nat): Progress
    requires i <= |items|
  {
    var bytes := Received(items[..i]);
    Progress(seed + bytes, base + bytes, |seed| + |bytes|)
  }

  /** The first rename that succeeds, among the tries from `i` on. */
  function FirstRename(rename: nat -> Option<IoKind>, i: nat): (r: Option<nat>)
    requires i <= RENAMES
    ensures r.None? ==> forall j | i <= j < RENAMES :: rename(j).Some?
    decreases RENAMES - i
  {
    if i == RENAMES then None else if rename(i).None? then Some(i) else FirstRename(rename, i + 1)
  }

  const RENAMES: nat := 5

  /** The end of an attempt whose stream ended properly. */
  function Settled(p: Progress, final: Option<Bytes>, sha: Bytes -> Bytes, expected: Option<Bytes>, w: World,
                   resumed: bool): (Disk, Outcome)
  {
    var kept, digest := Disk(Some(p.file), final), sha(p.hashed);
    if w.flush.Some? then (kept, Failed(Io(w.flush.value)))
    else if expected.Some? && digest != expected.value then
      (if w.removed then Disk(None, final) else kept, Failed(HashMismatch(expected.value, digest)))
    else if FirstRename(w.rename, 0).Some? then (Disk(None, Some(p.file)), Done(p.downloaded, digest, resumed))
    else (kept, Failed(Io(w.rename(RENAMES - 1).value)))
  }

  /** The attempt from the opened `.partial` file on. */
  function Streamed(seed: Bytes, base: Bytes, final: Option<Bytes>, items: seq<Item>, sha: Bytes -> Bytes,
                    expected: Option<Bytes>, w: World, resumed: bool): (Disk, Outcome)
  {
    var bytes, stop := Received(items), Stop(items);
    if stop.Some? then (Disk(Some(base + bytes + Torn(stop)), final), Broke(stop.value))
    else Settled(Progress(seed + bytes, base + bytes, |seed| + |bytes|), final, sha, expected, w, resumed)
  }

  function Attempted(d: Disk, sha: Bytes -> Bytes, expected: Option<Bytes>, w: World): (Disk, Outcome) {
    if Resume(d, w) > 0 && w.read.Some? then (d, Failed(Io(w.read.value)))
    else match w.respond(Resume(d, w))
      case NoResponse(timeout, connect, request) => (d, Failed(Http(timeout, connect, request)))
      case Response(status, items) =>
        if !(200 <= status < 300) then (d, Failed(BadStatus(status)))
        else if Restarts(d, w) && w.create.Some? then (d, Failed(Io(w.create.value)))
        else if w.open.Some? then (if Restarts(d, w) then Disk(Some([]), d.final) else d, Failed(Io(w.open.value)))
        else Streamed(Seed(d, w), Base(d, w), d.final, items, sha, expected, w, Resume(d, w) > 0)
  }

  // ---- Retries ------------------------------------------------------------------------------

  datatype Request = Request(url: string, parent: Option<bool>, expected: Option<Bytes>, maxRetries: Option<nat>)

  /** An address, and a final path in a directory that exists. */
  predicate WellPut(req: Request) {
    req.url != "" && req.parent == Some(true)
  }

  function Limit(req: Request): nat {
    if req.maxRetries.Some? then req.maxRetries.value else 5
  }

  datatype Run = Run(disk: Disk, outcome: Outcome, attempts: nat)

  /** Attempts from number `i` on, with `left` retries to go. */
  function Tried(d: Disk, sha: Bytes -> Bytes, expected: Option<Bytes>, worlds: nat -> World, i: nat, left: nat): Run
    decreases left
  {
    var (d', o) := Attempted(d, sha, expected, worlds(i));
    if Retries(o) && left > 0 then Tried(d', sha, expected, worlds, i + 1, left - 1) else Run(d', o, i + 1)
  }

  function Downloaded(d: Disk, sha: Bytes -> Bytes, req: Request, worlds: nat -> World): Run {
    if WellPut(req) then Tried(d, sha, req.expected, worlds, 0, Limit(req)) else Run(d, Failed(InvalidRequest), 0)
  }

  // ---- The downloader -----------------------------------------------------------------------

  class Downloader {
    const sha: Bytes -> Bytes
    var partial: Option<Bytes>
    var final: Option<Bytes>

    function State(): Disk
      reads this
    {
      Disk(partial, final)
    }

    constructor (sha: Bytes -> Bytes, disk: Disk)
      ensures this.sha == sha && State() == disk
    {
      this.sha := sha;
      partial := disk.partial;
      final := disk.final;
    }

    /** Takes the stream into the hasher and the file, up to the item that stops it. */
    method Absorb(items: seq<Item>, seed: Bytes) returns (hasher: Bytes, downloaded: nat, stop: Option<Item>)
      requires partial.Some?
      modifies this`partial
      ensures stop == Stop(items)
      ensures partial == Some(old(partial).value + Received(items) + Torn(stop))
      ensures hasher == seed + Received(items) && downloaded == |seed| + |Received(items)|
    {
      hasher, downloaded := seed, |seed|;
      ghost var base := partial.value;
      var i := 0;
      while i < |items|
        invariant 0 <= i <= |items| && Plain(items[..i]) && partial.Some?
        invariant LoopHead(seed, base, items, i) == Progress(hasher, partial.value, downloaded)
      {
        var item := items[i];
        if item.Data? {
          NextChunk(items, i);
          hasher := hasher + item.chunk;
          partial := Some(partial.value + item.chunk);
          downloaded := downloaded + |item.chunk|;
        } else {
          StopsHere(items, i);
          NothingTorn(partial.value);
          if item.ShortWrite? || item.Kill? {
            partial := Some(partial.value + Upto(item.chunk, item.written));
          }
          return hasher, downloaded, Some(item);
        }
        i := i + 1;
      }
      assert items[..i] == items && items[i..] == [];
      PlainPrefix(items, i);
      NothingTorn(partial.value);
      stop := None;
    }

    /** Renames `.partial`, trying a few times. */
    method Persist(rename: nat -> Option<IoKind>) returns (failure: Option<IoKind>)
      modifies this
      ensures FirstRename(rename, 0).Some? ==> failure.None? && partial.None? && final == old(partial)
      ensures FirstRename(rename, 0).None? ==> failure == rename(RENAMES - 1) && State() == old(State())
    {
      failure := None;
      var i := 0;
      while i < RENAMES
        invariant 0 <= i <= RENAMES && State() == old(State())
        invariant FirstRename(rename, 0) == FirstRename(rename, i)
        invariant i > 0 ==> failure == rename(i - 1)
      {
        failure := rename(i);
        if failure.None? {
          partial, final := None, partial;
          return;
        }
        i := i + 1;
      }
    }

    method Finish(p: Progress, expected: Option<Bytes>, w: World, resumed: bool) returns (o: Outcome)
      requires partial == Some(p.file)
      modifies this
      ensures (State(), o) == Settled(p, old(final), sha, expected, w, resumed)
    {
      if w.flush.Some? {
        return Failed(Io(w.flush.value));
      }
      var digest := sha(p.hashed);
      if expected.Some? && digest != expected.value {
        if w.removed {
          partial := None;
        }
        return Failed(HashMismatch(expected.value, digest));
      }
      var failure := Persist(w.rename);
      if failure.Some? {
        return Failed(Io(failure.value));
      }
      o := Done(p.downloaded, digest, resumed);
    }

    method Attempt(expected: Option<Bytes>, w: World) returns (o: Outcome)
      modifies this
      ensures (State(), o) == Attempted(old(State()), sha, expected, w)
    {
      hide Settled, Received, Stop, Torn;
      var resumeFrom := if w.metadata && partial.Some? then |partial.value| else 0;
      var resumed := resumeFrom > 0;
      var hasher: Bytes := [];
      if resumeFrom > 0 {
        if w.read.Some? {
          return Failed(Io(w.read.value));
        }
        hasher := partial.value;
      }
      var response := w.respond(resumeFrom);
      if response.NoResponse? {
        return Failed(Http(response.timeout, response.connect, response.request));
      }
      var ranged := response.status == 206;
      if !(200 <= response.status < 300) {
        return Failed(BadStatus(response.status));
      }
      if !ranged && resumeFrom > 0 {
        if w.create.Some? {
          return Failed(Io(w.create.value));
        }
        partial := Some([]);
        resumeFrom, hasher := 0, [];
      }
      if w.open.Some? {
        return Failed(Io(w.open.value));
      }
      if partial.None? {
        partial := Some([]);
      }
      ghost var base := partial.value;
      var downloaded, stop;
      hasher, downloaded, stop := Absorb(response.stream, hasher);
      if stop.Some? {
        return Broke(stop.value);
      }
      NothingTorn(base + Received(response.stream));
      o := Finish(Progress(hasher, partial.value, downloaded), expected, w, resumed);
    }

    method Download(req: Request, worlds: nat -> World) returns (o: Outcome, attempts: nat)
      modifies this
      ensures Run(State(), o, attempts) == Downloaded(old(State()), sha, req, worlds)
    {
      hide Attempted;
      attempts := 0;
      if req.url == "" {
        return Failed(InvalidRequest), 0;
      }
      if req.parent.None? {
        return Failed(InvalidRequest), 0;
      }
      if !req.parent.value {
        return Failed(InvalidRequest), 0;
      }
      var left: nat := if req.maxRetries.Some? then req.maxRetries.value else 5;
      while true
        invariant Tried(State(), sha, req.expected, worlds, attempts, left) ==
                  Downloaded(old(State()), sha, req, worlds)
        decreases left
      {
        o := Attempt(req.expected, worlds(attempts));
        attempts := attempts + 1;
        if !Retries(o) || left == 0 {
          return;
        }
        left := left - 1;
      }
    }
  }

  lemma NothingTorn(file: Bytes)
    ensures Torn(None) == [] && file + [] == file
  {
  }

  // ---- The hash and the file ----------------------------------------------------------------

  /** The metadata of a `.partial` with content can be read. */
  predicate Seen(d: Disk, w: World) {
    w.metadata || Content(d.partial) == []
  }

  /**
    At each loop head the hasher has absorbed exactly the bytes of `.partial`, and the counter is their number, if
    and only if the metadata of a `.partial` with content could be read.
   */
  lemma HasherAgrees(d: Disk, w: World, items: seq<Item>, i: nat)
    requires i <= |items|
    ensures
      var p := LoopHead(Seed(d, w), Base(d, w), items, i);
      Seen(d, w) <==> p.hashed == p.file && p.downloaded == |p.file|
  {
    var p := LoopHead(Seed(d, w), Base(d, w), items, i);
    assert |p.file| == |Base(d, w)| + |Received(items[..i])|;
    if !Seen(d, w) {
      assert Seed(d, w) == [] && Base(d, w) != [];
      assert |p.hashed| < |p.file|;
    }
  }

  /** A file reaches the final path only if its own hash is the expected one, and it is the whole `.partial`. */
  lemma OnlyVerifiedFilesArrive(d: Disk, sha: Bytes -> Bytes, expected: Option<Bytes>, w: World)
    requires Seen(d, w)
    ensures
      var (d', o) := Attempted(d, sha, expected, w);
      && (d'.final != d.final ==> o.Done?)
      && (o.Done? ==>
            && d'.partial.None? && d'.final.Some? && Base(d, w) <= d'.final.value
            && o.bytes == |d'.final.value| && o.digest == sha(d'.final.value)
            && (expected.Some? ==> sha(d'.final.value) == expected.value))
  {
    hide Received, Stop, Torn, FirstRename;
    assert Seed(d, w) == Base(d, w);
  }

  /** With metadata that could not be read, a file whose hash is not the expected one can arrive. */
  lemma UnseenPartialArrives(sha: Bytes -> Bytes, w: World, x: Byte, y: Byte)
    requires !w.metadata && w.respond(0) == Response(200, [Data([y])])
    requires w.open.None? && w.flush.None? && w.rename(0).None?
    ensures
      var (d', o) := Attempted(Disk(Some([x]), None), sha, Some(sha([y])), w);
      o.Done? && o.digest == sha([y]) && d'.final == Some([x, y])
  {
    var items := [Data([y])];
    assert items[1..] == [];
    assert Received(items) == [y] + [] == [y];
    assert [x] + [y] == [x, y];
    assert [] + [y] == [y];
    assert Stop(items) == Stop([]) == None;
    assert FirstRename(w.rename, 0) == Some(0);
  }

  // ---- An honest server ---------------------------------------------------------------------

  /** All the bytes the response carried, also those of the item that stopped the stream. */
  function Carried(items: seq<Item>): Bytes {
    var stop := Stop(items);
    Received(items) + if stop.Some? && (stop.value.ShortWrite? || stop.value.Kill?) then stop.value.chunk else []
  }

  /** 206 carries the resource from the offset on, another 2xx all of it; a proper end means nothing is missing. */
  predicate HonestResponse(r: Response, resource: Bytes, resume: nat) {
    r.Response? && 200 <= r.status < 300 ==>
      && (r.status == 206 ==> resume <= |resource|)
      && var body := if r.status == 206 then resource[resume..] else resource;
      && Carried(r.stream) <= body
      && (Stop(r.stream).None? ==> Carried(r.stream) == body)
  }

  ghost predicate Honest(w: World, resource: Bytes) {
    forall resume: nat :: HonestResponse(w.respond(resume), resource, resume)
  }

  /** `.partial` is a prefix of the resource, and the final file is the original one or the resource. */
  predicate Sound(d: Disk, resource: Bytes, original: Option<Bytes>) {
    Content(d.partial) <= resource && (d.final == original || d.final == Some(resource))
  }

  lemma TornIsCarried(items: seq<Item>)
    ensures Received(items) + Torn(Stop(items)) <= Carried(items)
    ensures Stop(items).None? ==> Received(items) == Carried(items)
  {
    var stop := Stop(items);
    if stop.Some? && (stop.value.ShortWrite? || stop.value.Kill?) {
      var torn := Upto(stop.value.chunk, stop.value.written);
      assert torn <= stop.value.chunk;
    }
  }

  lemma PrefixGrows(base: Bytes, more: Bytes, resource: Bytes)
    requires base <= resource && more <= resource[|base|..]
    ensures base + more <= resource
    ensures more == resource[|base|..] ==> base + more == resource
  {
    assert resource == base + resource[|base|..];
    assert resource[|base|..] == more + resource[|base|..][|more|..];
  }

  /** A stream that carries on where an agreeing hasher and file stand. */
  lemma HonestStream(base: Bytes, final: Option<Bytes>, items: seq<Item>, sha: Bytes -> Bytes, expected: Option<Bytes>,
                     w: World, resumed: bool, resource: Bytes)
    requires base <= resource && Carried(items) <= resource[|base|..]
    requires Stop(items).None? ==> Carried(items) == resource[|base|..]
    ensures
      var (d', o) := Streamed(base, base, final, items, sha, expected, w, resumed);
      && Content(d'.partial) <= resource && (d'.final == final || d'.final == Some(resource))
      && (o.Done? ==> d' == Disk(None, Some(resource)) && o.bytes == |resource| && o.digest == sha(resource))
      && (o.Failed? && o.error.HashMismatch? ==> expected.Some? && expected.value != sha(resource))
  {
    hide Received, Stop, Torn, Carried, FirstRename;
    TornIsCarried(items);
    PrefixGrows(base, Received(items), resource);
    PrefixGrows(base, Received(items) + Torn(Stop(items)), resource);
    Regroup(base, Received(items), Torn(Stop(items)));
  }

  /** One attempt against an honest server. */
  lemma HonestAttempt(d: Disk, sha: Bytes -> Bytes, expected: Option<Bytes>, w: World, resource: Bytes,
                      original: Option<Bytes>)
    requires w.metadata && HonestResponse(w.respond(Resume(d, w)), resource, Resume(d, w))
    requires Sound(d, resource, original)
    ensures
      var (d', o) := Attempted(d, sha, expected, w);
      && Sound(d', resource, original)
      && (o.Done? ==> d' == Disk(None, Some(resource)) && o.bytes == |resource| && o.digest == sha(resource))
      && (o.Failed? && o.error.HashMismatch? ==> expected.Some? && expected.value != sha(resource))
  {
    hide Received, Stop, Carried, Streamed;
    var r := w.respond(Resume(d, w));
    var base := Base(d, w);
    assert Seed(d, w) == base;
    if r.Response? && 200 <= r.status < 300 {
      assert resource[0..] == resource;
      HonestStream(base, d.final, r.stream, sha, expected, w, Resume(d, w) > 0, resource);
    }
  }

  lemma Regroup(a: Bytes, b: Bytes, c: Bytes)
    ensures (a + b) + c == a + (b + c)
  {
  }

  // ---- Whole runs ---------------------------------------------------------------------------

  /** The disk before attempt `i`, and how that attempt ends. */
  function DiskBefore(d: Disk, sha: Bytes -> Bytes, expected: Option<Bytes>, worlds: nat -> World, i: nat): Disk {
    if i == 0 then d else Attempted(DiskBefore(d, sha, expected, worlds, i - 1), sha, expected, worlds(i - 1)).0
  }

  function OutcomeOf(d: Disk, sha: Bytes -> Bytes, expected: Option<Bytes>, worlds: nat -> World, i: nat): Outcome {
    Attempted(DiskBefore(d, sha, expected, worlds, i), sha, expected, worlds(i)).1
  }

  lemma {:induction false} TriedFrom(d: Disk, sha: Bytes -> Bytes, expected: Option<Bytes>, worlds: nat -> World,
                                     i: nat, left: nat)
    ensures
      var run := Tried(DiskBefore(d, sha, expected, worlds, i), sha, expected, worlds, i, left);
      && i < run.attempts <= i + left + 1
      && (forall k | i <= k < run.attempts - 1 :: Retries(OutcomeOf(d, sha, expected, worlds, k)))
      && run.outcome == OutcomeOf(d, sha, expected, worlds, run.attempts - 1)
      && run.disk == DiskBefore(d, sha, expected, worlds, run.attempts)
      && (run.attempts < i + left + 1 ==> !Retries(run.outcome))
    decreases left
  {
    hide Attempted, Retries;
    var here := DiskBefore(d, sha, expected, worlds, i);
    assert Attempted(here, sha, expected, worlds(i)).0 == DiskBefore(d, sha, expected, worlds, i + 1);
    if Retries(OutcomeOf(d, sha, expected, worlds, i)) && left > 0 {
      TriedFrom(d, sha, expected, worlds, i + 1, left - 1);
    }
  }

  /**
    A download makes at least one and at most `max_retries + 1` attempts; each but the last failed in a way worth
    a retry, so nothing follows a cancelled attempt or a wrong hash; it stops early only when another attempt is not
    worth it; and its outcome and disk are those of the last attempt.
   */
  lemma RetriesAreBounded(d: Disk, sha: Bytes -> Bytes, req: Request, worlds: nat -> World)
    requires WellPut(req)
    ensures
      var run := Downloaded(d, sha, req, worlds);
      var last := run.attempts - 1;
      && 1 <= run.attempts <= Limit(req) + 1
      && (forall k | 0 <= k < last ::
            var o := OutcomeOf(d, sha, req.expected, worlds, k);
            Retries(o) && o.Failed? && !o.error.Cancelled? && !o.error.HashMismatch?)
      && run.outcome == OutcomeOf(d, sha, req.expected, worlds, last)
      && run.disk == DiskBefore(d, sha, req.expected, worlds, run.attempts)
      && (run.attempts <= Limit(req) ==> !Retries(run.outcome))
  {
    hide Attempted, Tried, OutcomeOf;
    TriedFrom(d, sha, req.expected, worlds, 0, Limit(req));
  }

  ghost predicate AllHonest(worlds: nat -> World, resource: Bytes) {
    forall i: nat :: worlds(i).metadata && Honest(worlds(i), resource)
  }

  lemma {:induction false} HonestTries(d: Disk, sha: Bytes -> Bytes, expected: Option<Bytes>, worlds: nat -> World,
                                       i: nat, left: nat, resource: Bytes, original: Option<Bytes>)
    requires AllHonest(worlds, resource) && Sound(d, resource, original)
    ensures
      var run := Tried(d, sha, expected, worlds, i, left);
      && Sound(run.disk, resource, original)
      && (run.outcome.Done? ==> run.disk == Disk(None, Some(resource)) && run.outcome.digest == sha(resource))
      && (run.outcome.Failed? && run.outcome.error.HashMismatch? ==> expected.Some? && expected.value != sha(resource))
    decreases left
  {
    hide Attempted, Sound, Retries;
    assert worlds(i).metadata && Honest(worlds(i), resource);
    HonestAttempt(d, sha, expected, worlds(i), resource, original);
    var (d', o) := Attempted(d, sha, expected, worlds(i));
    if Retries(o) && left > 0 {
      HonestTries(d', sha, expected, worlds, i + 1, left - 1, resource, original);
    }
  }

  /** A download, and the world it meets. */
  datatype Call = Call(req: Request, worlds: nat -> World)

  /** The disk after one download after another, each possibly killed in the middle of a write. */
  function After(d: Disk, sha: Bytes -> Bytes, calls: seq<Call>): Disk {
    if calls == [] then d
    else
      var n := |calls| - 1;
      Downloaded(After(d, sha, calls[..n]), sha, calls[n].req, calls[n].worlds).disk
  }

  /**
    Over any number of downloads, cancelled, broken off, killed or failing in any other way, against an honest
    server: `.partial` stays a prefix of the resource, and success means that the final file is the resource.
   */
  lemma {:induction false} HonestSession(d: Disk, sha: Bytes -> Bytes, calls: seq<Call>, resource: Bytes)
    requires Content(d.partial) <= resource
    requires forall c | c in calls :: AllHonest(c.worlds, resource)
    ensures Sound(After(d, sha, calls), resource, d.final)
    ensures
      calls != [] ==>
        var n := |calls| - 1;
        var run := Downloaded(After(d, sha, calls[..n]), sha, calls[n].req, calls[n].worlds);
        && (run.outcome.Done? ==> run.disk == Disk(None, Some(resource)) && run.outcome.digest == sha(resource))
        && (run.outcome.Failed? && run.outcome.error.HashMismatch? ==> calls[n].req.expected != Some(sha(resource)))
    decreases |calls|
  {
    hide Sound, AllHonest, Tried;
    if calls == [] {
      SoundAtFirst(d, resource);
    } else {
      var n := |calls| - 1;
      var c := calls[n];
      assert forall x | x in calls[..n] :: x in calls;
      assert c in calls;
      HonestSession(d, sha, calls[..n], resource);
      HonestTries(After(d, sha, calls[..n]), sha, c.req.expected, c.worlds, 0, Limit(c.req), resource, d.final);
    }
  }

  lemma SoundAtFirst(d: Disk, resource: Bytes)
    requires Content(d.partial) <= resource
    ensures Sound(d, resource, d.final)
  {
  }

  // ---- When a download completes ------------------------------------------------------------

  /** Nothing fails on this side: one of the renames succeeds, and so does all else. */
  predicate Smooth(w: World) {
    w.metadata && w.read.None? && w.create.None? && w.open.None? && w.flush.None? && FirstRename(w.rename, 0).Some?
  }

  /** The answer carries these bytes, cut in any way, to their end. */
  predicate Carries(r: Response, status: nat, bytes: Bytes) {
    r.Response? && r.status == status && Stop(r.stream).None? && Received(r.stream) == bytes
  }

  /** The resource from the offset on; behind its end there is nothing to ask for. */
  predicate RangedAnswer(r: Response, resource: Bytes, resume: nat) {
    if resume == 0 then Carries(r, 200, resource)
    else if resume < |resource| then Carries(r, 206, resource[resume..])
    else r.Response? && r.status == 416
  }

  ghost predicate Ranged(w: World, resource: Bytes) {
    forall resume: nat :: RangedAnswer(w.respond(resume), resource, resume)
  }

  /** A server that does not know ranges. */
  ghost predicate Rangeless(w: World, resource: Bytes) {
    forall resume: nat :: Carries(w.respond(resume), 200, resource)
  }

  predicate Expects(expected: Option<Bytes>, digest: Bytes) {
    expected.Some? ==> expected.value == digest
  }

  /** The attempt that brings the rest of the resource. */
  lemma RestArrives(d: Disk, sha: Bytes -> Bytes, expected: Option<Bytes>, w: World, resource: Bytes)
    requires Smooth(w) && Base(d, w) <= resource && Seed(d, w) == Base(d, w)
    requires
      var r := w.respond(Resume(d, w));
      && (Carries(r, 200, resource[|Base(d, w)|..]) || Carries(r, 206, resource[|Base(d, w)|..]))
    ensures
      var (d', o) := Attempted(d, sha, expected, w);
      if Expects(expected, sha(resource)) then
        d' == Disk(None, Some(resource)) && o == Done(|resource|, sha(resource), Content(d.partial) != [])
      else o == Failed(HashMismatch(expected.value, sha(resource)))
  {
    hide Received, Stop, FirstRename;
    PrefixGrows(Base(d, w), resource[|Base(d, w)|..], resource);
  }

  /**
    With nothing failing and a server that knows ranges, an attempt succeeds if and only if the hash is the right
    one and `.partial` is not complete already, there being something to complete.
   */
  lemma AttemptCompletes(d: Disk, sha: Bytes -> Bytes, expected: Option<Bytes>, w: World, resource: Bytes)
    requires Smooth(w) && Ranged(w, resource) && Content(d.partial) <= resource
    ensures
      var (d', o) := Attempted(d, sha, expected, w);
      var complete := resource != [] && Content(d.partial) == resource;
      && (o.Done? <==> !complete && Expects(expected, sha(resource)))
      && (o.Done? ==> d' == Disk(None, Some(resource)) && o.bytes == |resource| && o.digest == sha(resource))
      && (complete ==> d' == d && o == Failed(BadStatus(416)))
      && !Retries(o)
  {
    var resume := Resume(d, w);
    assert RangedAnswer(w.respond(resume), resource, resume);
    hide Received, Stop, FirstRename, Ranged;
    assert resource[0..] == resource;
    if resume == 0 || resume < |resource| {
      RestArrives(d, sha, expected, w, resource);
    }
  }

  /** Attempts that each failed in a way worth a retry bring the download to the next one. */
  lemma {:induction false} RetriedTo(d: Disk, sha: Bytes -> Bytes, expected: Option<Bytes>, worlds: nat -> World,
                                     k: nat, limit: nat)
    requires k <= limit && forall i | 0 <= i < k :: Retries(OutcomeOf(d, sha, expected, worlds, i))
    ensures Tried(d, sha, expected, worlds, 0, limit) ==
            Tried(DiskBefore(d, sha, expected, worlds, k), sha, expected, worlds, k, limit - k)
  {
    hide Attempted, Retries;
    if k > 0 {
      RetriedTo(d, sha, expected, worlds, k - 1, limit);
      assert Retries(OutcomeOf(d, sha, expected, worlds, k - 1));
    }
  }

  lemma {:induction false} SoundBefore(d: Disk, sha: Bytes -> Bytes, expected: Option<Bytes>, worlds: nat -> World,
                                       k: nat, resource: Bytes)
    requires Content(d.partial) <= resource
    requires forall i: nat | i < k :: worlds(i).metadata && Honest(worlds(i), resource)
    ensures Sound(DiskBefore(d, sha, expected, worlds, k), resource, d.final)
  {
    hide Attempted, Sound;
    if k == 0 {
      SoundAtFirst(d, resource);
    } else {
      SoundBefore(d, sha, expected, worlds, k - 1, resource);
      var before := DiskBefore(d, sha, expected, worlds, k - 1);
      assert HonestResponse(worlds(k - 1).respond(Resume(before, worlds(k - 1))),
                            resource, Resume(before, worlds(k - 1)));
      HonestAttempt(before, sha, expected, worlds(k - 1), resource, d.final);
    }
  }

  /**
    When a download completes: after any number of transient failures within the limit, an attempt in which nothing
    fails, against a server that knows ranges, ends it.  It then succeeds if and only if the hash is the right one
    and the attempts before have not left a complete `.partial`; and a complete one stays where it is.
   */
  lemma CompletionExact(d: Disk, sha: Bytes -> Bytes, req: Request, worlds: nat -> World, resource: Bytes, k: nat)
    requires WellPut(req) && k <= Limit(req) && Content(d.partial) <= resource
    requires forall i: nat | i < k :: worlds(i).metadata && Honest(worlds(i), resource)
    requires forall i | 0 <= i < k :: Retries(OutcomeOf(d, sha, req.expected, worlds, i))
    requires Smooth(worlds(k)) && Ranged(worlds(k), resource)
    ensures
      var run := Downloaded(d, sha, req, worlds);
      var before := DiskBefore(d, sha, req.expected, worlds, k);
      && run.attempts == k + 1
      && (run.outcome.Done? <==>
            (Content(before.partial) != resource || resource == []) && Expects(req.expected, sha(resource)))
      && (run.outcome.Done? ==>
            && run.disk == Disk(None, Some(resource))
            && run.outcome.bytes == |resource| && run.outcome.digest == sha(resource))
      && (Content(before.partial) == resource != [] ==> run.disk == before && run.outcome == Failed(BadStatus(416)))
  {
    hide Attempted, OutcomeOf, Ranged, Smooth, Honest, Retries;
    RetriedTo(d, sha, req.expected, worlds, k, Limit(req));
    SoundBefore(d, sha, req.expected, worlds, k, resource);
    AttemptCompletes(DiskBefore(d, sha, req.expected, worlds, k), sha, req.expected, worlds(k), resource);
  }

  /** A server that does not know ranges starts over, so that a complete `.partial` is no obstacle. */
  lemma RangelessCompletes(d: Disk, sha: Bytes -> Bytes, req: Request, worlds: nat -> World, resource: Bytes)
    requires WellPut(req) && Smooth(worlds(0)) && Rangeless(worlds(0), resource)
    ensures
      var run := Downloaded(d, sha, req, worlds);
      && run.attempts == 1
      && (run.outcome.Done? <==> Expects(req.expected, sha(resource)))
      && (run.outcome.Done? ==>
            && run.disk == Disk(None, Some(resource))
            && run.outcome.bytes == |resource| && run.outcome.digest == sha(resource))
  {
    var w := worlds(0);
    assert Carries(w.respond(Resume(d, w)), 200, resource);
    assert resource[0..] == resource;
    RestArrives(d, sha, req.expected, w, resource);
    hide Attempted, Rangeless;
  }

  /**
    No promise of completion: once `.partial` is complete, an honest server refuses the request for what lies behind
    it, and every download gives up after one attempt and leaves the disk as it was.
   */
  lemma CompletePartialIsStuck(d: Disk, sha: Bytes -> Bytes, req: Request, worlds: nat -> World, resource: Bytes,
                               items: seq<Item>)
    requires WellPut(req) && resource != [] && d.partial == Some(resource)
    requires worlds(0).metadata && worlds(0).read.None? && worlds(0).respond(|resource|) == Response(416, items)
    ensures Downloaded(d, sha, req, worlds) == Run(d, Failed(BadStatus(416)), 1)
  {
  }
}
