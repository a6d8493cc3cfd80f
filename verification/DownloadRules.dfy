/**
  What an attempt leaves on disk and how it ends, case by case, told from what the server and the file system did.
*/
module DownloadRules {
  import opened Text
  import opened Downloader

  /** Chunks that arrive and are written without a fault. */
  function Chunks(chunks: seq<Bytes>): seq<Item> {
    seq(|chunks|, i requires 0 <= i < |chunks| => Data(chunks[i]))
  }

  function Bytewise(chunks: seq<Bytes>): Bytes {
    if chunks == [] then [] else chunks[0] + Bytewise(chunks[1..])
  }

  lemma {:induction false} ChunksThen(chunks: seq<Bytes>, more: seq<Item>)
    requires more == [] || !more[0].Data?
    ensures Received(Chunks(chunks) + more) == Bytewise(chunks)
    ensures Stop(Chunks(chunks) + more) == if more == [] then None else Some(more[0])
  {
    if chunks == [] {
      assert Chunks(chunks) + more == more;
    } else {
      ChunksThen(chunks[1..], more);
      assert (Chunks(chunks) + more)[1..] == Chunks(chunks[1..]) + more;
    }
  }

  /** How many bytes of the `.partial` file the attempt knows of. */
  function Known(d: Disk, w: World): nat {
    if w.metadata && d.partial.Some? then |d.partial.value| else 0
  }

  /** What is left of the `.partial` file when the server has answered: nothing if it ignored the range asked for. */
  function Kept(d: Disk, w: World, status: nat): Bytes {
    if (Known(d, w) > 0 && status != 206) || d.partial.None? then [] else d.partial.value
  }

  /** What the hasher knows of it. */
  function Rehashed(d: Disk, w: World, status: nat): Bytes {
    if Known(d, w) > 0 then Kept(d, w, status) else []
  }

  /** The attempt gets as far as the body: `items`. */
  predicate Reaches(d: Disk, w: World, status: nat, items: seq<Item>) {
    && (Known(d, w) > 0 ==> w.read.None?)
    && w.respond(Known(d, w)) == Response(status, items) && 200 <= status < 300
    && (Known(d, w) > 0 && status != 206 ==> w.create.None?) && w.open.None?
  }

  /** Before the body nothing is lost but a file that has to start over. */
  lemma NothingStreamed(d: Disk, sha: Bytes -> Bytes, expected: Option<Bytes>, w: World)
    ensures
      var (d', o) := Attempted(d, sha, expected, w);
      var r := w.respond(Known(d, w));
      if Known(d, w) > 0 && w.read.Some? then d' == d && o == Failed(Io(w.read.value))
      else if r.NoResponse? then d' == d && o == Failed(Http(r.timeout, r.connect, r.request))
      else if r.status < 200 || r.status >= 300 then d' == d && o == Failed(BadStatus(r.status))
      else if Known(d, w) > 0 && r.status != 206 && w.create.Some? then d' == d && o == Failed(Io(w.create.value))
      else if w.open.Some? then
        && o == Failed(Io(w.open.value)) && d'.final == d.final
        && d'.partial == if Known(d, w) > 0 && r.status != 206 then Some([]) else d.partial
      else Reaches(d, w, r.status, r.stream)
  {
  }

  /** A body that stops in the middle leaves every byte that was written, and how it stopped is the outcome. */
  lemma StoppedStreamKeeps(d: Disk, sha: Bytes -> Bytes, expected: Option<Bytes>, w: World, status: nat,
                           chunks: seq<Bytes>, stop: Item, more: seq<Item>)
    requires !stop.Data? && Reaches(d, w, status, Chunks(chunks) + ([stop] + more))
    ensures
      var (d', o) := Attempted(d, sha, expected, w);
      var file := Kept(d, w, status) + Bytewise(chunks);
      && d'.final == d.final
      && match stop
         case Broken(timeout, connect, request) =>
           d'.partial == Some(file) && o == Failed(Http(timeout, connect, request))
         case Cancel => d'.partial == Some(file) && o == Failed(Error.Cancelled)
         case ShortWrite(chunk, n, kind) =>
           d'.partial == Some(file + chunk[..if n < |chunk| then n else |chunk|]) && o == Failed(Io(kind))
         case Kill(chunk, n) => d'.partial == Some(file + chunk[..if n < |chunk| then n else |chunk|]) && o == Killed
  {
    hide Received, Stop;
    ChunksThen(chunks, [stop] + more);
    assert ([stop] + more)[0] == stop;
    var file := Kept(d, w, status) + Bytewise(chunks);
    assert file + [] == file;
    assert forall chunk: Bytes :: chunk[..|chunk|] == chunk;
  }

  /** Some of the five renames succeeds. */
  predicate Renames(w: World) {
    exists j | 0 <= j < 5 :: w.rename(j).None?
  }

  lemma {:induction false} RenameFound(rename: nat -> Option<IoKind>, i: nat)
    requires i <= RENAMES
    ensures FirstRename(rename, i).Some? <==> exists j | i <= j < RENAMES :: rename(j).None?
    decreases RENAMES - i
  {
    if i < RENAMES && rename(i).Some? {
      RenameFound(rename, i + 1);
    }
  }

  /**
    A body that ends properly: the file is flushed, checked, and renamed; a wrong hash leaves no `.partial` if it can be
    removed, and the whole of it otherwise.
   */
  lemma ProperEnd(d: Disk, sha: Bytes -> Bytes, expected: Option<Bytes>, w: World, status: nat, chunks: seq<Bytes>)
    requires Reaches(d, w, status, Chunks(chunks))
    ensures
      var file, hashed := Kept(d, w, status) + Bytewise(chunks), Rehashed(d, w, status) + Bytewise(chunks);
      Attempted(d, sha, expected, w) ==
      if w.flush.Some? then (Disk(Some(file), d.final), Failed(Io(w.flush.value)))
      else if expected.Some? && sha(hashed) != expected.value then
        (Disk(if w.removed then None else Some(file), d.final), Failed(HashMismatch(expected.value, sha(hashed))))
      else if Renames(w) then
        (Disk(None, Some(file)), Done(|hashed|, sha(hashed), Known(d, w) > 0))
      else (Disk(Some(file), d.final), Failed(Io(w.rename(4).value)))
  {
    hide Received, Stop, FirstRename;
    ChunksThen(chunks, []);
    assert Chunks(chunks) + [] == Chunks(chunks);
    RenameFound(w.rename, 0);
  }

  // ---- A wrong hash -------------------------------------------------------------------------

  predicate Mismatch(o: Outcome) { o.Failed? && o.error.HashMismatch? }

  /** Whatever arrived, a wrong hash leaves the final file alone, and `.partial` only if it could not be removed. */
  lemma MismatchClears(d: Disk, sha: Bytes -> Bytes, expected: Option<Bytes>, w: World)
    requires Mismatch(Attempted(d, sha, expected, w).1)
    ensures
      var (d', o) := Attempted(d, sha, expected, w);
      && d'.final == d.final && expected.Some? && o.error.expected == expected.value != o.error.actual
      && d'.partial == if w.removed then None else Some(Base(d, w) + Received(w.respond(Known(d, w)).stream))
  {
    hide Received, Stop, Torn, FirstRename;
  }

  /** An attempt that did not succeed leaves the final file alone. */
  lemma FailureKeepsFinal(d: Disk, sha: Bytes -> Bytes, expected: Option<Bytes>, w: World)
    requires !Attempted(d, sha, expected, w).1.Done?
    ensures Attempted(d, sha, expected, w).0.final == d.final
  {
    hide Received, Stop, Torn, FirstRename;
  }

  lemma {:induction false} FailuresKeepFinal(d: Disk, sha: Bytes -> Bytes, expected: Option<Bytes>,
                                             worlds: nat -> World, n: nat)
    requires forall k | 0 <= k < n :: !OutcomeOf(d, sha, expected, worlds, k).Done?
    ensures DiskBefore(d, sha, expected, worlds, n).final == d.final
  {
    hide Attempted;
    if n > 0 {
      FailuresKeepFinal(d, sha, expected, worlds, n - 1);
      assert !OutcomeOf(d, sha, expected, worlds, n - 1).Done?;
      FailureKeepsFinal(DiskBefore(d, sha, expected, worlds, n - 1), sha, expected, worlds(n - 1));
    }
  }

  /**
    A download that ends with a wrong hash leaves the final file as it was; if `.partial` could be removed it is gone,
    and the next download, with the right hash and nothing failing, brings the resource.
   */
  lemma FreshStartAfterMismatch(d: Disk, sha: Bytes -> Bytes, req: Request, worlds: nat -> World, last: nat,
                                next: Request, later: nat -> World, resource: Bytes)
    requires WellPut(req) && Mismatch(Downloaded(d, sha, req, worlds).outcome)
    requires Downloaded(d, sha, req, worlds).attempts == last + 1 && worlds(last).removed
    requires WellPut(next) && Smooth(later(0)) && Ranged(later(0), resource) && Expects(next.expected, sha(resource))
    ensures
      var run := Downloaded(d, sha, req, worlds);
      && run.disk == Disk(None, d.final)
      && Downloaded(run.disk, sha, next, later).outcome.Done?
      && Downloaded(run.disk, sha, next, later).disk == Disk(None, Some(resource))
  {
    hide Attempted, Tried, Smooth, Ranged, Expects;
    var run := Downloaded(d, sha, req, worlds);
    RetriesAreBounded(d, sha, req, worlds);
    forall k | 0 <= k < run.attempts ensures !OutcomeOf(d, sha, req.expected, worlds, k).Done? {
      if k < last { assert Retries(OutcomeOf(d, sha, req.expected, worlds, k)); }
    }
    FailuresKeepFinal(d, sha, req.expected, worlds, run.attempts);
    MismatchClears(DiskBefore(d, sha, req.expected, worlds, last), sha, req.expected, worlds(last));
    CompletionExact(run.disk, sha, next, later, resource, 0);
  }

  // ---- What is tried again ------------------------------------------------------------------

  /** Timeouts and broken connections, answers 5xx, and interruptions of the disk; nothing else. */
  lemma RetriesExactly(o: Outcome)
    ensures
      Retries(o) <==>
      match o
      case Done(_, _, _) => false
      case Killed => false
      case Failed(Http(timeout, connect, request)) => timeout || connect || request
      case Failed(BadStatus(status)) => 500 <= status <= 599
      case Failed(Io(kind)) => kind == TimedOut || kind == Interrupted || kind == WouldBlock
      case Failed(_) => false
  {
  }

  /** A request without an address, or without a directory to write to, touches nothing. */
  lemma InvalidTouchesNothing(d: Disk, sha: Bytes -> Bytes, req: Request, worlds: nat -> World)
    requires req.url == "" || req.parent != Some(true)
    ensures Downloaded(d, sha, req, worlds) == Run(d, Failed(InvalidRequest), 0)
  {
  }

  /** Failures that are all worth a retry use up all attempts: six, unless the request says otherwise. */
  lemma {:induction false} AllAttemptsAreUsed(d: Disk, sha: Bytes -> Bytes, req: Request, worlds: nat -> World)
    requires req.url != "" && req.parent == Some(true)
    requires forall k: nat :: Retries(OutcomeOf(d, sha, req.expected, worlds, k))
    ensures Downloaded(d, sha, req, worlds).attempts == if req.maxRetries.Some? then req.maxRetries.value + 1 else 6
  {
    hide Attempted, Tried, Retries, OutcomeOf;
    RetriesAreBounded(d, sha, req, worlds);
    assert Retries(OutcomeOf(d, sha, req.expected, worlds, Downloaded(d, sha, req, worlds).attempts - 1));
  }
}
