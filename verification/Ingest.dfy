/**
  The streaming dataset ingest: rows are split into chunks, chunks are embedded in batches, and every chunk is sent
  on with its own embedding.  It refines a plain flat-map over the rows.
*/
module Ingest {
  import opened Text

  datatype Piece = Piece(row: nat, index: nat, text: string)

  datatype Embedded<E> = Embedded(row: nat, index: nat, text: string, vector: E)

  /** A row of a record batch: its composed text, or a column that cannot be read as text. */
  datatype Row = Words(text: string) | Malformed

  datatype Batch = Rows(rows: seq<Row>) | Faulty

  datatype Source = Readable(batches: seq<Batch>) | Unreadable

  datatype Error = Cancelled | ResolveFailed | ReadFailed | ComposeFailed | EmbeddingFailed

  datatype Verdict = Ok | Err(error: Error)

  function Min(a: nat, b: nat): nat { if a < b then a else b }

  // ---- The flat-map -------------------------------------------------------------------------

  function Numbered(row: nat, texts: seq<string>): seq<Piece> {
    seq(|texts|, i requires 0 <= i < |texts| => Piece(row, i, texts[i]))
  }

  /** The pieces of a row; none of a blank one. */
  function PiecesOf(split: string -> seq<string>, row: nat, r: Row): seq<Piece> {
    if r.Malformed? || Trim(r.text) == "" then [] else Numbered(row, split(r.text))
  }

  /** The pieces of rows numbered from `first` on. */
  function Flat(split: string -> seq<string>, rows: seq<Row>, first: nat): seq<Piece> {
    if rows == [] then [] else PiecesOf(split, first, rows[0]) + Flat(split, rows[1..], first + 1)
  }

  /** The rows before the first faulty batch. */
  function RowsOf(batches: seq<Batch>): seq<Row> {
    if batches == [] || batches[0].Faulty? then [] else batches[0].rows + RowsOf(batches[1..])
  }

  predicate Whole(batches: seq<Batch>) {
    forall b | b in batches :: b.Rows?
  }

  /** The rows before the first source or batch that cannot be read. */
  function AllRows(sources: seq<Source>): seq<Row> {
    if sources == [] || sources[0].Unreadable? then []
    else RowsOf(sources[0].batches) + if Whole(sources[0].batches) then AllRows(sources[1..]) else []
  }

  predicate AllReadable(sources: seq<Source>) {
    forall s | s in sources :: s.Readable? && Whole(s.batches)
  }

  /** What a run is to send: the pieces of the first `max` rows. */
  function Wanted(split: string -> seq<string>, sources: seq<Source>, max: nat): seq<Piece> {
    var rows := AllRows(sources);
    Flat(split, rows[..Min(|rows|, max)], 0)
  }

  lemma {:induction false} FlatConcat(split: string -> seq<string>, a: seq<Row>, b: seq<Row>, first: nat)
    ensures Flat(split, a + b, first) == Flat(split, a, first) + Flat(split, b, first + |a|)
  {
    hide PiecesOf;
    if a == [] {
      assert a + b == b;
    } else {
      assert (a + b)[1..] == a[1..] + b;
      FlatConcat(split, a[1..], b, first + 1);
      Regroup(PiecesOf(split, first, a[0]), Flat(split, a[1..], first + 1), Flat(split, b, first + |a|));
    }
  }

  lemma Regroup<T>(a: seq<T>, b: seq<T>, c: seq<T>)
    ensures (a + b) + c == a + (b + c)
  {
  }

  /** The flat-map of more rows continues that of fewer. */
  lemma FlatGrows(split: string -> seq<string>, rows: seq<Row>, m: nat, n: nat, first: nat)
    requires m <= n <= |rows|
    ensures Flat(split, rows[..n], first) == Flat(split, rows[..m], first) + Flat(split, rows[m..n], first + m)
  {
    hide Flat, PiecesOf;
    assert rows[..n] == rows[..m] + rows[m..n];
    FlatConcat(split, rows[..m], rows[m..n], first);
  }

  lemma PiecesOfOne(split: string -> seq<string>, r: Row, first: nat)
    ensures Flat(split, [r], first) == PiecesOf(split, first, r)
  {
    hide PiecesOf;
    assert [r][1..] == [];
    assert Flat(split, [], first + 1) == [];
  }

  // ---- Keys ---------------------------------------------------------------------------------

  predicate Before(p: Piece, q: Piece) {
    p.row < q.row || (p.row == q.row && p.index < q.index)
  }

  predicate Increasing(s: seq<Piece>) {
    forall i, j | 0 <= i < j < |s| :: Before(s[i], s[j])
  }

  /** The keys (row, index) of the flat-map are strictly increasing. */
  lemma {:induction false} KeysIncrease(split: string -> seq<string>, rows: seq<Row>, first: nat)
    ensures Increasing(Flat(split, rows, first))
    ensures forall p | p in Flat(split, rows, first) :: first <= p.row < first + |rows|
  {
    if rows != [] {
      KeysIncrease(split, rows[1..], first + 1);
      var head := PiecesOf(split, first, rows[0]);
      assert forall p | p in head :: p.row == first;
      assert Increasing(head);
      hide PiecesOf, Flat;
      IncreasingConcat(head, Flat(split, rows[1..], first + 1));
    }
  }

  lemma IncreasingConcat(a: seq<Piece>, b: seq<Piece>)
    requires Increasing(a) && Increasing(b)
    requires forall p, q | p in a && q in b :: Before(p, q)
    ensures Increasing(a + b)
  {
    var c := a + b;
    forall i, j | 0 <= i < j < |c| ensures Before(c[i], c[j]) {
      if i < |a| <= j {
        assert c[i] in a && c[j] in b;
      }
    }
  }

  // ---- Row by row ---------------------------------------------------------------------------

  /** The text at place `i` of row `k` as it is split; none of a blank row. */
  predicate Yields(split: string -> seq<string>, rows: seq<Row>, k: nat, i: nat, text: string) {
    && k < |rows| && rows[k].Words? && !AllSpace(rows[k].text)
    && i < |split(rows[k].text)| && split(rows[k].text)[i] == text
  }

  /** One piece for each text of each row that is not blank, in the order of rows and texts, and no other pieces. */
  ghost predicate RowByRow(split: string -> seq<string>, rows: seq<Row>, pieces: seq<Piece>) {
    && Increasing(pieces)
    && (forall p | p in pieces :: Yields(split, rows, p.row, p.index, p.text))
    && (forall k: nat, i: nat, text | Yields(split, rows, k, i, text) :: Piece(k, i, text) in pieces)
  }

  lemma BlankIsSpace(text: string)
    ensures Trim(text) == "" <==> AllSpace(text)
  {
    var lo, hi := TrimSplits(text);
  }

  lemma PiecesYield(split: string -> seq<string>, rows: seq<Row>, k: nat, p: Piece)
    requires k < |rows|
    ensures p in PiecesOf(split, k, rows[k]) <==> p.row == k && Yields(split, rows, p.row, p.index, p.text)
  {
    hide Trim;
    if rows[k].Words? {
      BlankIsSpace(rows[k].text);
      var texts := split(rows[k].text);
      assert p.row == k && p.index < |texts| && texts[p.index] == p.text ==> Numbered(k, texts)[p.index] == p;
    }
  }

  lemma {:induction false} FlatYields(split: string -> seq<string>, rows: seq<Row>, m: nat, p: Piece)
    requires m <= |rows|
    ensures p in Flat(split, rows[m..], m) <==> m <= p.row && Yields(split, rows, p.row, p.index, p.text)
    decreases |rows| - m
  {
    hide PiecesOf, Yields;
    if m < |rows| {
      PiecesYield(split, rows, m, p);
      FlatYields(split, rows, m + 1, p);
      assert rows[m..][0] == rows[m] && rows[m..][1..] == rows[m + 1..];
    } else {
      NothingYields(split, rows, p);
    }
  }

  lemma NothingYields(split: string -> seq<string>, rows: seq<Row>, p: Piece)
    ensures |rows| <= p.row ==> !Yields(split, rows, p.row, p.index, p.text)
  {
  }

  /** The pieces of the flat-map, told without it. */
  lemma FlatIsRowByRow(split: string -> seq<string>, rows: seq<Row>)
    ensures RowByRow(split, rows, Flat(split, rows, 0))
  {
    hide Flat, Yields, Increasing;
    KeysIncrease(split, rows, 0);
    assert rows[0..] == rows;
    forall p: Piece ensures p in Flat(split, rows, 0) <==> Yields(split, rows, p.row, p.index, p.text) {
      FlatYields(split, rows, 0, p);
    }
  }

  /** How many rows the batches hold. */
  function RowsAhead(batches: seq<Batch>): nat {
    if batches == [] then 0 else (if batches[0].Rows? then |batches[0].rows| else 0) + RowsAhead(batches[1..])
  }

  /** How many rows the sources hold. */
  function RowsBefore(sources: seq<Source>): nat {
    if sources == [] then 0
    else (if sources[0].Readable? then RowsAhead(sources[0].batches) else 0) + RowsBefore(sources[1..])
  }

  lemma {:induction false} RowInSource(batches: seq<Batch>, b: nat, i: nat)
    requires b < |batches| && (forall k | 0 <= k <= b :: batches[k].Rows?) && i < |batches[b].rows|
    ensures
      var at := RowsAhead(batches[..b]) + i;
      at < |RowsOf(batches)| && RowsOf(batches)[at] == batches[b].rows[i]
    decreases b
  {
    if b > 0 {
      RowInSource(batches[1..], b - 1, i);
      assert batches[..b][0] == batches[0] && batches[..b][1..] == batches[1..][..b - 1];
    }
  }

  lemma {:induction false} AllRowsAhead(batches: seq<Batch>)
    requires Whole(batches)
    ensures |RowsOf(batches)| == RowsAhead(batches)
  {
    if batches != [] {
      assert batches[0] in batches && forall x | x in batches[1..] :: x in batches;
      AllRowsAhead(batches[1..]);
    }
  }

  /** Rows are numbered through: file after file, record batch after record batch. */
  lemma {:induction false} RowsAreNumbered(sources: seq<Source>, s: nat, b: nat, i: nat)
    requires s < |sources| && AllReadable(sources[..s]) && sources[s].Readable?
    requires b < |sources[s].batches| && (forall k | 0 <= k <= b :: sources[s].batches[k].Rows?)
    requires i < |sources[s].batches[b].rows|
    ensures
      var at := RowsBefore(sources[..s]) + RowsAhead(sources[s].batches[..b]) + i;
      at < |AllRows(sources)| && AllRows(sources)[at] == sources[s].batches[b].rows[i]
    decreases s
  {
    hide Whole, RowsOf, RowsAhead;
    if s == 0 {
      RowInSource(sources[0].batches, b, i);
    } else {
      assert sources[..s][0] == sources[0] && sources[..s][0] in sources[..s];
      assert sources[..s][1..] == sources[1..][..s - 1];
      assert forall x | x in sources[1..][..s - 1] :: x in sources[..s];
      AllRowsAhead(sources[0].batches);
      RowsAreNumbered(sources[1..], s - 1, b, i);
    }
  }

  // ---- Sent chunks --------------------------------------------------------------------------

  function Bare<E>(sent: seq<Embedded<E>>): (r: seq<Piece>)
    ensures |r| == |sent|
  {
    seq(|sent|, i requires 0 <= i < |sent| => Piece(sent[i].row, sent[i].index, sent[i].text))
  }

  function Texts(pieces: seq<Piece>): (r: seq<string>)
    ensures |r| == |pieces|
  {
    seq(|pieces|, i requires 0 <= i < |pieces| => pieces[i].text)
  }

  function Zip<E>(pieces: seq<Piece>, vectors: seq<E>): (r: seq<Embedded<E>>)
    requires |pieces| == |vectors|
    ensures |r| == |pieces|
  {
    seq(|pieces|, i requires 0 <= i < |pieces| => Embedded(pieces[i].row, pieces[i].index, pieces[i].text, vectors[i]))
  }

  lemma BareZip<E>(sent: seq<Embedded<E>>, pieces: seq<Piece>, vectors: seq<E>, j: nat)
    requires |pieces| == |vectors| && j <= |pieces|
    ensures Bare(sent + Zip(pieces, vectors)[..j]) == Bare(sent) + pieces[..j]
    ensures pieces[..|pieces|] == pieces && Zip(pieces, vectors)[..|pieces|] == Zip(pieces, vectors)
    ensures Bare(sent) + pieces[..j] <= Bare(sent) + pieces
    ensures forall s: seq<Piece> :: s + [] == s
  {
  }

  function Sum(numbers: seq<nat>): nat {
    if numbers == [] then 0 else Sum(numbers[..|numbers| - 1]) + numbers[|numbers| - 1]
  }

  lemma SumMore(numbers: seq<nat>, n: nat)
    ensures Sum(numbers + [n]) == Sum(numbers) + n
  {
    assert (numbers + [n])[..|numbers|] == numbers;
  }

  class Ingest<E> {
    const split: string -> seq<string>
    const batchSize: nat
    /** Whether cancellation is seen at the n-th look, and whether the receiver takes the n-th chunk. */
    const cancelled: nat -> bool
    const takes: nat -> bool
    /** The embedder's answer to its n-th call. */
    const embed: (nat, seq<string>) -> Option<seq<E>>
    /** The vector of a text, for embedders that treat each text by itself. */
    ghost const vector: string -> E

    var looks: nat
    var calls: nat
    /** How many texts each call of the embedder was given. */
    ghost var asked: seq<nat>
    var buffer: seq<Piece>
    var sent: seq<Embedded<E>>
    var rowsProcessed: nat
    var chunksGenerated: nat
    var chunksEmbedded: nat

    constructor (split: string -> seq<string>, batchSize: nat, cancelled: nat -> bool, takes: nat -> bool,
                 embed: (nat, seq<string>) -> Option<seq<E>>, ghost vector: string -> E)
      ensures Valid() && Fresh()
      ensures this.split == split && this.batchSize == batchSize && this.cancelled == cancelled
      ensures this.takes == takes && this.embed == embed && this.vector == vector
    {
      this.split, this.batchSize, this.cancelled := split, batchSize, cancelled;
      this.takes, this.embed, this.vector := takes, embed, vector;
      looks, calls, buffer, sent, asked := 0, 0, [], [], [];
      rowsProcessed, chunksGenerated, chunksEmbedded := 0, 0, 0;
    }

    ghost predicate Fresh()
      reads this
    {
      sent == [] && buffer == [] && rowsProcessed == 0 && calls == 0 && asked == []
    }

    /** Whatever the embedder answers are the texts' own vectors. */
    ghost predicate Pointwise() {
      forall n: nat, texts :: var r := embed(n, texts);
        r.Some? && |r.value| == |texts| ==> forall i | 0 <= i < |texts| :: r.value[i] == vector(texts[i])
    }

    /** Counted, and each chunk with its own vector. */
    ghost predicate Safe()
      reads this`sent, this`chunksEmbedded
    {
      chunksEmbedded == |sent| && (Pointwise() ==> forall x | x in sent :: x.vector == vector(x.text))
    }

    /** All pieces so far: sent, then buffered. */
    ghost function Output(): seq<Piece>
      reads this`sent, this`buffer
    {
      Bare(sent) + buffer
    }

    ghost predicate Valid()
      reads this`sent, this`buffer, this`chunksEmbedded, this`chunksGenerated
    {
      Safe() && chunksGenerated == |Output()|
    }

    /** How many texts the embedder is given at once. */
    function Full(): nat {
      if batchSize == 0 then 1 else batchSize
    }

    /** The buffer is never full between two pieces, and all calls so far were for a full one. */
    ghost predicate Room()
      reads this`buffer, this`asked, this`calls, this`sent
    {
      && |buffer| < Full() && Counted() && forall n | n in asked :: n == Full()
    }

    /** Everything sent was asked for in these calls. */
    ghost predicate Counted()
      reads this`asked, this`calls, this`sent
    {
      |asked| == calls && Sum(asked) == |sent|
    }

    /** All calls but the last are for a full buffer. */
    ghost predicate InBatches()
      reads this`asked, this`calls, this`sent
    {
      && Counted()
      && forall i | 0 <= i < |asked| :: 0 < asked[i] <= Full() && (i < |asked| - 1 ==> asked[i] == Full())
    }

    /**
      Why a run may fail: a look that saw the cancellation, a receiver that refused, an answer of the embedder to
      the whole buffer that is none or too short or long.  Unless the receiver refused, nothing generated is lost.
     */
    ghost predicate Excused(e: Error)
      reads this
    {
      && (e == Cancelled ==> (looks > 0 && cancelled(looks - 1)) || !takes(|sent|))
      && (e == EmbeddingFailed ==>
            calls > 0 && var r := embed(calls - 1, Texts(buffer)); buffer != [] && (r.None? || |r.value| != |buffer|))
      && (chunksGenerated == |Output()| || (e == Cancelled && !takes(|sent|)))
    }

    /** Sends the pieces with their vectors, until the receiver refuses one. */
    method Send(pieces: seq<Piece>, vectors: seq<E>) returns (r: Verdict)
      requires Safe() && |pieces| == |vectors|
      requires Pointwise() ==> forall i | 0 <= i < |pieces| :: vectors[i] == vector(pieces[i].text)
      modifies this`sent, this`chunksEmbedded
      ensures Safe()
      ensures r.Ok? ==> sent == old(sent) + Zip(pieces, vectors)
      ensures r.Err? ==>
                r.error == Cancelled && !takes(|sent|) && |old(sent)| <= |sent| < |old(sent)| + |pieces| &&
                sent == old(sent) + Zip(pieces, vectors)[..|sent| - |old(sent)|]
    {
      hide Pointwise;
      var i := 0;
      while i < |pieces|
        invariant 0 <= i <= |pieces|
        invariant sent == old(sent) + Zip(pieces, vectors)[..i]
        invariant Safe()
      {
        if !takes(|sent|) {
          return Err(Cancelled);
        }
        sent := sent + [Embedded(pieces[i].row, pieces[i].index, pieces[i].text, vectors[i])];
        chunksEmbedded := chunksEmbedded + 1;
        i := i + 1;
      }
      assert Zip(pieces, vectors)[..i] == Zip(pieces, vectors);
      r := Ok;
    }

    lemma OwnVectors(pieces: seq<Piece>, n: nat)
      requires embed(n, Texts(pieces)).Some? && |embed(n, Texts(pieces)).value| == |pieces|
      ensures Pointwise() ==> forall i | 0 <= i < |pieces| :: embed(n, Texts(pieces)).value[i] == vector(pieces[i].text)
    {
    }

    /** Embeds the buffer and sends it on. */
    method Flush() returns (r: Verdict)
      requires Valid()
      modifies this`looks, this`calls, this`asked, this`buffer, this`sent, this`chunksEmbedded
      ensures Safe() && looks == old(looks) + 1
      ensures r.Ok? ==> Valid() && Output() == old(Output()) && buffer == []
      ensures r.Ok? && old(Counted()) ==>
                Counted() && asked == if old(buffer) == [] then old(asked) else old(asked) + [|old(buffer)|]
      ensures r.Err? ==>
                && Excused(r.error) && Bare(sent) <= old(Output())
                && (r.error == Cancelled || r.error == EmbeddingFailed)
    {
      hide Bare, Zip, Sum, Pointwise;
      looks := looks + 1;
      if cancelled(looks - 1) {
        return Err(Cancelled);
      }
      if buffer == [] {
        return Ok;
      }
      var texts := Texts(buffer);
      var answer := embed(calls, texts);
      calls := calls + 1;
      SumMore(asked, |texts|);
      asked := asked + [|texts|];
      if answer.None? || |answer.value| != |texts| {
        return Err(EmbeddingFailed);
      }
      ghost var before := sent;
      var pieces, vectors := buffer, answer.value;
      buffer := [];
      OwnVectors(pieces, calls - 1);
      r := Send(pieces, vectors);
      BareZip(before, pieces, vectors, |sent| - |before|);
    }

    /** Buffers the pieces of a row one by one, flushing whenever the buffer is full. */
    method AddPieces(pieces: seq<Piece>) returns (r: Verdict)
      requires Valid() && Room()
      modifies this`looks, this`calls, this`asked, this`buffer, this`sent, this`chunksEmbedded, this`chunksGenerated
      ensures Safe() && looks >= old(looks)
      ensures r.Ok? ==> Valid() && Room() && Output() == old(Output()) + pieces
      ensures r.Err? ==>
                && Excused(r.error) && Bare(sent) <= old(Output()) + pieces
                && (r.error == Cancelled || r.error == EmbeddingFailed)
    {
      hide Bare, Excused;
      var i := 0;
      while i < |pieces|
        invariant 0 <= i <= |pieces| && looks >= old(looks)
        invariant Valid() && Room() && Output() == old(Output()) + pieces[..i]
      {
        Snoc(Bare(sent), buffer, pieces[i]);
        TakeNext(old(Output()), pieces, i);
        buffer := buffer + [pieces[i]];
        chunksGenerated := chunksGenerated + 1;
        i := i + 1;
        if |buffer| >= batchSize {
          r := Flush();
          if r.Err? {
            return;
          }
        }
      }
      assert pieces[..i] == pieces;
      r := Ok;
    }

    /** The rows of a record batch, up to the limit. */
    method AddRows(rows: seq<Row>, max: nat) returns (r: Verdict)
      requires Valid() && Room() && rowsProcessed <= max
      modifies this`looks, this`calls, this`asked, this`buffer, this`sent
      modifies this`chunksEmbedded, this`chunksGenerated, this`rowsProcessed
      ensures Safe() && looks >= old(looks) && old(rowsProcessed) <= rowsProcessed
      ensures
        var m := Min(|rows|, max - old(rowsProcessed));
        var wanted := old(Output()) + Flat(split, rows[..m], old(rowsProcessed));
        && (r.Ok? ==>
              && Valid() && Room() && rowsProcessed == old(rowsProcessed) + m
              && Output() == wanted && Malformed !in rows[..m])
        && (r.Err? ==>
              && Excused(r.error) && Bare(sent) <= wanted && r.error != ReadFailed && r.error != ResolveFailed
              && (r.error == ComposeFailed ==>
                    var k := rowsProcessed - old(rowsProcessed);
                    && k < m && rows[k].Malformed? && Malformed !in rows[..k]
                    && Output() == old(Output()) + Flat(split, rows[..k], old(rowsProcessed))))
    {
      hide Bare, PiecesOf, Flat, Valid, Room, Safe, Excused, Output;
      ghost var first, m := rowsProcessed, Min(|rows|, max - rowsProcessed);
      var i := 0;
      NoRows(split, rows, first, Output());
      while i < |rows|
        invariant 0 <= i <= m && rowsProcessed == first + i && looks >= old(looks)
        invariant Malformed !in rows[..i]
        invariant Valid() && Room() && Output() == old(Output()) + Flat(split, rows[..i], first)
      {
        if rowsProcessed >= max {
          break;
        }
        NextRow(split, rows, i, first, old(Output()));
        RowsSoFar(split, rows, i, m, first, old(Output()));
        RowsSoFar(split, rows, i + 1, m, first, old(Output()));
        if rows[i].Malformed? {
          Unsent();
          NotCancelled(ComposeFailed);
          return Err(ComposeFailed);
        }
        var text := rows[i].text;
        if Trim(text) == "" {
          BlankRow(split, rows[i], rowsProcessed, Output());
          rowsProcessed := rowsProcessed + 1;
          i := i + 1;
          continue;
        }
        WrittenRow(split, rows[i], rowsProcessed);
        r := AddPieces(Numbered(rowsProcessed, split(text)));
        if r.Err? {
          return;
        }
        rowsProcessed := rowsProcessed + 1;
        i := i + 1;
      }
      Unsent();
      r := Ok;
    }

    /**
      A whole run.  On success the pieces of the first `max` rows have been sent, all of them, in order; on any
      failure a prefix of them has.
     */
    method Run(urls: Option<seq<Source>>, max: nat) returns (r: Verdict)
      requires Valid() && Fresh()
      modifies this
      ensures Safe()
      ensures
        var sources := if urls.Some? then urls.value else [];
        var n := Min(|AllRows(sources)|, max);
        var wanted := Wanted(split, sources, max);
        && (r.Ok? ==>
              && Bare(sent) == wanted && RowByRow(split, AllRows(sources)[..n], Bare(sent))
              && buffer == [] && rowsProcessed == n && InBatches()
              && chunksGenerated == chunksEmbedded == |wanted|
              && Malformed !in AllRows(sources)[..n] && sources != [] && (n == max || AllReadable(sources)))
        && (r.Err? ==>
              && Excused(r.error) && Bare(sent) <= wanted
              && (r.error == ResolveFailed ==> urls.None?)
              && (r.error == ReadFailed ==>
                    (sources == [] || !AllReadable(sources)) && rowsProcessed == n && Output() == wanted)
              && (r.error == ComposeFailed ==>
                    && rowsProcessed < n && AllRows(sources)[rowsProcessed].Malformed?
                    && Output() == Flat(split, AllRows(sources)[..rowsProcessed], 0)))
    {
      hide Bare, PiecesOf, Flat, AllRows, AllReadable, Whole, RowsOf, Excused, Valid, Safe, Output, Reached, BrokenOff;
      hide RowByRow;
      Unsent();
      NothingYet();
      looks := looks + 1;
      if cancelled(looks - 1) {
        LookedCancelled();
        return Err(Cancelled);
      }
      if urls.None? {
        NotCancelled(ResolveFailed);
        return Err(ResolveFailed);
      }
      var sources := urls.value;
      if sources == [] {
        NotCancelled(ReadFailed);
        NoSources(split, max);
        return Err(ReadFailed);
      }
      r := AddSources(sources, max);
      if r.Err? {
        WhatBrokeOff(sources, max, r.error);
        return;
      }
      AllDone(sources, max);
      ghost var before, left := asked, |buffer|;
      if buffer != [] {
        Unsent();
        r := Flush();
        if r.Err? {
          return;
        }
      }
      AllSent();
      LastCall(before, left);
      FlatIsRowByRow(split, AllRows(sources)[..Min(|AllRows(sources)|, max)]);
      r := Ok;
    }

    lemma NothingYet()
      requires Fresh()
      ensures Bare(sent) == [] && Output() == []
    {
    }

    /** At the end the rest of the buffer, if any, has been the last call. */
    lemma LastCall(before: seq<nat>, n: nat)
      requires Counted() && n <= Full() && forall x | x in before :: x == Full()
      requires asked == if n == 0 then before else before + [n]
      ensures InBatches()
    {
      assert forall i | 0 <= i < |before| :: before[i] in before;
    }

    lemma AllSent()
      requires Valid() && buffer == []
      ensures Bare(sent) == Output() && Safe() && chunksGenerated == chunksEmbedded == |Output()|
    {
    }

    /** The first rows are done, and `rest` are the rows to come. */
    ghost predicate Reached(rows: seq<Row>, max: nat, rest: seq<Row>)
      reads this`sent, this`buffer, this`chunksEmbedded, this`chunksGenerated, this`rowsProcessed
      reads this`asked, this`calls
    {
      && Valid() && Room() && rowsProcessed <= Min(|rows|, max)
      && (rowsProcessed < max ==> rows[rowsProcessed..] == rest)
      && Malformed !in rows[..rowsProcessed] && Output() == [] + Flat(split, rows[..rowsProcessed], 0)
    }

    /**
      The failure leaves a prefix of what was wanted; one of reading comes when all rows before it are done, one of
      composing at the first malformed row.
     */
    ghost predicate BrokenOff(rows: seq<Row>, max: nat, e: Error)
      reads this
    {
      var n := Min(|rows|, max);
      && Excused(e) && Bare(sent) <= [] + Flat(split, rows[..n], 0)
      && (e == ReadFailed ==> rowsProcessed == n && Output() == [] + Flat(split, rows[..n], 0))
      && (e == ComposeFailed ==>
            && rowsProcessed < n && rows[rowsProcessed].Malformed? && Malformed !in rows[..rowsProcessed]
            && Output() == [] + Flat(split, rows[..rowsProcessed], 0))
    }

    lemma AllDone(sources: seq<Source>, max: nat)
      requires Reached(AllRows(sources), max, [])
      ensures
        var n := Min(|AllRows(sources)|, max);
        && Valid() && Room() && rowsProcessed == n && Output() == Wanted(split, sources, max)
        && Malformed !in AllRows(sources)[..n]
    {
      hide Flat, AllRows, Valid, Output;
    }

    lemma WhatBrokeOff(sources: seq<Source>, max: nat, e: Error)
      requires BrokenOff(AllRows(sources), max, e)
      ensures
        var n := Min(|AllRows(sources)|, max);
        var wanted := Wanted(split, sources, max);
        && Excused(e) && Bare(sent) <= wanted
        && (e == ReadFailed ==> rowsProcessed == n && Output() == wanted)
        && (e == ComposeFailed ==>
              && rowsProcessed < n && AllRows(sources)[rowsProcessed].Malformed?
              && Output() == Flat(split, AllRows(sources)[..rowsProcessed], 0))
    {
      hide Flat, AllRows, Bare, Output, Excused;
    }

    lemma BreaksOff(rows: seq<Row>, max: nat, rest: seq<Row>, e: Error)
      requires Reached(rows, max, rest) && Excused(e) && e != ComposeFailed && (e == ReadFailed ==> rest == [])
      ensures BrokenOff(rows, max, e)
    {
      hide Bare, Flat, Excused, Output;
      Unsent();
      RowsSoFar(split, rows, rowsProcessed, Min(|rows|, max), 0, []);
    }

    /** A record batch, its rows being the next. */
    method TakeRows(batch: seq<Row>, max: nat, ghost rows: seq<Row>, ghost rest: seq<Row>) returns (r: Verdict)
      requires Reached(rows, max, batch + rest)
      modifies this`looks, this`calls, this`asked, this`buffer, this`sent
      modifies this`chunksEmbedded, this`chunksGenerated, this`rowsProcessed
      ensures Safe() && looks >= old(looks)
      ensures r.Ok? ==> Reached(rows, max, rest)
      ensures r.Err? ==> BrokenOff(rows, max, r.error) && r.error != ResolveFailed && r.error != ReadFailed
    {
      hide Bare, PiecesOf, Flat, Excused, Valid, Safe, Output;
      ghost var d := rowsProcessed;
      ghost var m := Min(|batch|, max - d);
      if d < max {
        Advance(split, rows, d, batch, m, rest, 0, []);
      } else {
        NoRows(split, batch, d, [] + Flat(split, rows[..d], 0));
      }
      RowsSoFar(split, rows, d + m, Min(|rows|, max), 0, []);
      r := AddRows(batch, max);
      if r == Err(ComposeFailed) {
        Advance(split, rows, d, batch, rowsProcessed - d, rest, 0, []);
        assert rows[d..][rowsProcessed - d] == rows[rowsProcessed];
      }
    }

    /** The record batches of a source; `full` when the limit is reached before their end. */
    method AddSource(batches: seq<Batch>, max: nat, ghost rows: seq<Row>, ghost rest: seq<Row>)
      returns (r: Verdict, full: bool)
      requires Reached(rows, max, RowsOf(batches) + rest) && (!Whole(batches) ==> rest == [])
      modifies this`looks, this`calls, this`asked, this`buffer, this`sent
      modifies this`chunksEmbedded, this`chunksGenerated, this`rowsProcessed
      ensures Safe() && looks >= old(looks)
      ensures r.Ok? ==>
                && Reached(rows, max, if full then [] else rest)
                && (if full then rowsProcessed == max else Whole(batches))
      ensures r.Err? ==>
                BrokenOff(rows, max, r.error) && r.error != ResolveFailed && (r.error == ReadFailed ==> !Whole(batches))
    {
      hide Bare, PiecesOf, Flat, Whole, RowsOf, Excused, Valid, Safe, Output;
      full := false;
      var j := 0;
      assert batches[0..] == batches;
      while j < |batches|
        invariant 0 <= j <= |batches| && looks >= old(looks)
        invariant forall k | 0 <= k < j :: batches[k].Rows?
        invariant Reached(rows, max, RowsOf(batches[j..]) + rest)
      {
        looks := looks + 1;
        Unsent();
        if cancelled(looks - 1) {
          LookedCancelled();
          BreaksOff(rows, max, RowsOf(batches[j..]) + rest, Cancelled);
          return Err(Cancelled), false;
        }
        if rowsProcessed >= max {
          return Ok, true;
        }
        FirstBatch(batches, j);
        if batches[j].Faulty? {
          NotCancelled(ReadFailed);
          BreaksOff(rows, max, RowsOf(batches[j..]) + rest, ReadFailed);
          return Err(ReadFailed), false;
        }
        var batch := batches[j].rows;
        ghost var more := RowsOf(batches[j + 1..]);
        Regroup(batch, more, rest);
        r := TakeRows(batch, max, rows, more + rest);
        if r.Err? {
          return r, false;
        }
        j := j + 1;
      }
      NoMoreBatches(batches, j);
      assert [] + rest == rest;
      Unsent();
      r := Ok;
    }

    method AddSources(sources: seq<Source>, max: nat) returns (r: Verdict)
      requires Valid() && Room() && Output() == [] && rowsProcessed == 0
      modifies this`looks, this`calls, this`asked, this`buffer, this`sent
      modifies this`chunksEmbedded, this`chunksGenerated, this`rowsProcessed
      ensures Safe() && looks >= old(looks)
      ensures r.Ok? ==> Reached(AllRows(sources), max, []) && (rowsProcessed == max || AllReadable(sources))
      ensures r.Err? ==>
                && BrokenOff(AllRows(sources), max, r.error) && r.error != ResolveFailed
                && (r.error == ReadFailed ==> !AllReadable(sources))
    {
      hide Bare, PiecesOf, Flat, AllRows, AllReadable, Whole, RowsOf, Excused, Valid, Safe, Output;
      ghost var rows := AllRows(sources);
      var j := 0;
      NoRows(split, rows, 0, []);
      assert sources[0..] == sources && rows[0..] == rows;
      while j < |sources|
        invariant 0 <= j <= |sources| && looks >= old(looks)
        invariant forall k | 0 <= k < j :: sources[k].Readable? && Whole(sources[k].batches)
        invariant Reached(rows, max, AllRows(sources[j..]))
      {
        looks := looks + 1;
        Unsent();
        if cancelled(looks - 1) {
          LookedCancelled();
          BreaksOff(rows, max, AllRows(sources[j..]), Cancelled);
          return Err(Cancelled);
        }
        FirstSource(sources, j);
        if sources[j].Unreadable? {
          NotCancelled(ReadFailed);
          BreaksOff(rows, max, AllRows(sources[j..]), ReadFailed);
          return Err(ReadFailed);
        }
        var batches := sources[j].batches;
        var full;
        r, full := AddSource(batches, max, rows, if Whole(batches) then AllRows(sources[j + 1..]) else []);
        if r.Err? || full {
          return;
        }
        j := j + 1;
      }
      NoMoreSources(sources, j);
      Unsent();
      r := Ok;
    }

    lemma LookedCancelled()
      requires Valid() && looks > 0 && cancelled(looks - 1)
      ensures Excused(Cancelled)
    {
    }

    lemma NotCancelled(e: Error)
      requires Valid() && e != Cancelled && e != EmbeddingFailed
      ensures Excused(e)
    {
    }

    /** What is sent is the first part of the output. */
    lemma Unsent()
      ensures Bare(sent) <= Output()
      ensures Valid() ==> Safe()
    {
    }
  }

  lemma Snoc(a: seq<Piece>, b: seq<Piece>, p: Piece)
    ensures a + (b + [p]) == (a + b) + [p]
  {
  }

  lemma TakeNext(a: seq<Piece>, pieces: seq<Piece>, i: nat)
    requires i < |pieces|
    ensures (a + pieces[..i]) + [pieces[i]] == a + pieces[..i + 1]
    ensures a + pieces[..i + 1] <= a + pieces
  {
  }

  lemma NoRows(split: string -> seq<string>, rows: seq<Row>, first: nat, before: seq<Piece>)
    ensures before + Flat(split, rows[..0], first) == before
  {
  }

  lemma BlankRow(split: string -> seq<string>, r: Row, first: nat, before: seq<Piece>)
    requires r.Words? && Trim(r.text) == ""
    ensures before + PiecesOf(split, first, r) == before
  {
  }

  lemma WrittenRow(split: string -> seq<string>, r: Row, first: nat)
    requires r.Words? && Trim(r.text) != ""
    ensures PiecesOf(split, first, r) == Numbered(first, split(r.text))
  {
  }

  lemma NextRow(split: string -> seq<string>, rows: seq<Row>, i: nat, first: nat, before: seq<Piece>)
    requires i < |rows|
    ensures (before + Flat(split, rows[..i], first)) + PiecesOf(split, first + i, rows[i]) ==
            before + Flat(split, rows[..i + 1], first)
    ensures rows[..i + 1] == rows[..i] + [rows[i]]
  {
    hide Flat, PiecesOf;
    assert rows[..i + 1][..i] == rows[..i] && rows[i..i + 1] == [rows[i]];
    FlatGrows(split, rows, i, i + 1, first);
    PiecesOfOne(split, rows[i], first + i);
    Regroup(before, Flat(split, rows[..i], first), PiecesOf(split, first + i, rows[i]));
  }

  /** The output of fewer rows is a prefix of that of more. */
  lemma RowsSoFar(split: string -> seq<string>, rows: seq<Row>, i: nat, n: nat, first: nat, before: seq<Piece>)
    requires i <= n <= |rows|
    ensures before + Flat(split, rows[..i], first) <= before + Flat(split, rows[..n], first)
    ensures forall r | r in rows[..i] :: r in rows[..n]
  {
    hide Flat;
    FlatGrows(split, rows, i, n, first);
    Regroup(before, Flat(split, rows[..i], first), Flat(split, rows[i..n], first + i));
    assert rows[..i] == rows[..n][..i];
  }

  lemma FirstBatch(batches: seq<Batch>, j: nat)
    requires j < |batches|
    ensures RowsOf(batches[j..]) == if batches[j].Faulty? then [] else batches[j].rows + RowsOf(batches[j + 1..])
    ensures batches[j].Faulty? ==> !Whole(batches)
  {
    assert batches[j] in batches;
    assert batches[j..][0] == batches[j] && batches[j..][1..] == batches[j + 1..];
  }

  lemma NoMoreBatches(batches: seq<Batch>, j: nat)
    requires j == |batches|
    ensures RowsOf(batches[j..]) == []
    ensures (forall k | 0 <= k < j :: batches[k].Rows?) ==> Whole(batches)
  {
  }

  /** Taking `m` of the rows that come next. */
  lemma Advance(split: string -> seq<string>, all: seq<Row>, d: nat, rows: seq<Row>, m: nat, rest: seq<Row>, first: nat,
                before: seq<Piece>)
    requires d <= |all| && all[d..] == rows + rest && m <= |rows|
    ensures d + m <= |all|
    ensures (before + Flat(split, all[..d], first)) + Flat(split, rows[..m], first + d) ==
            before + Flat(split, all[..d + m], first)
    ensures m == |rows| ==> all[d + m..] == rest
    ensures all[..d + m] == all[..d] + rows[..m]
  {
    hide Flat;
    assert all[d..d + m] == all[d..][..m] == rows[..m];
    assert m == |rows| ==> all[d + m..] == all[d..][m..] == rest;
    FlatGrows(split, all, d, d + m, first);
    Regroup(before, Flat(split, all[..d], first), Flat(split, rows[..m], first + d));
  }

  lemma FirstSource(sources: seq<Source>, j: nat)
    requires j < |sources|
    ensures
      AllRows(sources[j..]) ==
      if sources[j].Unreadable? then []
      else RowsOf(sources[j].batches) + if Whole(sources[j].batches) then AllRows(sources[j + 1..]) else []
    ensures !(sources[j].Readable? && Whole(sources[j].batches)) ==> !AllReadable(sources)
  {
    assert sources[j] in sources;
    assert sources[j..][0] == sources[j] && sources[j..][1..] == sources[j + 1..];
  }

  lemma NoMoreSources(sources: seq<Source>, j: nat)
    requires j == |sources|
    ensures AllRows(sources[j..]) == []
    ensures (forall k | 0 <= k < j :: sources[k].Readable? && Whole(sources[k].batches)) ==> AllReadable(sources)
  {
  }

  lemma NoSources(split: string -> seq<string>, max: nat)
    ensures AllRows([]) == [] && Wanted(split, [], max) == []
  {
  }

  // ---- Splitting ----------------------------------------------------------------------------

  lemma {:induction false} RowsOfConcat(a: seq<Batch>, b: seq<Batch>)
    requires Whole(a)
    ensures RowsOf(a + b) == RowsOf(a) + RowsOf(b)
  {
    if a == [] {
      assert a + b == b;
    } else {
      assert (a + b)[1..] == a[1..] + b;
      assert a[0] in a && forall x | x in a[1..] :: x in a;
      RowsOfConcat(a[1..], b);
    }
  }

  /** Only the rows count: two files are as good as one with the record batches of both. */
  lemma SplittingDoesNotMatter(split: string -> seq<string>, a: seq<Batch>, b: seq<Batch>, rest: seq<Source>, max: nat)
    requires Whole(a)
    ensures Wanted(split, [Readable(a), Readable(b)] + rest, max) == Wanted(split, [Readable(a + b)] + rest, max)
  {
    hide Flat, AllRows, RowsOf, Whole;
    RowsOfConcat(a, b);
    WholeConcat(a, b);
    FirstReadable(a, [Readable(b)] + rest);
    FirstReadable(b, rest);
    FirstReadable(a + b, rest);
    assert [Readable(a), Readable(b)] + rest == [Readable(a)] + ([Readable(b)] + rest);
    Regroup(RowsOf(a), RowsOf(b), if Whole(b) then AllRows(rest) else []);
  }

  lemma WholeConcat(a: seq<Batch>, b: seq<Batch>)
    ensures Whole(a + b) <==> Whole(a) && Whole(b)
  {
    assert forall x :: x in a + b <==> x in a || x in b;
  }

  lemma FirstReadable(batches: seq<Batch>, rest: seq<Source>)
    ensures AllRows([Readable(batches)] + rest) == RowsOf(batches) + if Whole(batches) then AllRows(rest) else []
  {
    assert ([Readable(batches)] + rest)[1..] == rest;
  }
}
