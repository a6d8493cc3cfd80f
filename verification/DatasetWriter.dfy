/** The writer at the other end of the ingest channel: it inserts what it receives in batches, ignoring known keys. */
module DatasetWriter {
  import opened Text
  import opened Ingest

  datatype Key = Key(row: nat, index: nat)

  datatype Entry<E> = Entry(text: string, vector: E)

  type Table<E> = map<Key, Entry<E>>

  function KeyOf<E>(x: Embedded<E>): Key { Key(x.row, x.index) }

  function EntryOf<E>(x: Embedded<E>): Entry<E> { Entry(x.text, x.vector) }

  /** INSERT OR IGNORE. */
  function Insert<E>(t: Table<E>, x: Embedded<E>): Table<E> {
    if KeyOf(x) in t then t else t[KeyOf(x) := EntryOf(x)]
  }

  function InsertAll<E>(t: Table<E>, xs: seq<Embedded<E>>): Table<E> {
    if xs == [] then t else Insert(InsertAll(t, xs[..|xs| - 1]), xs[|xs| - 1])
  }

  function Joined<E>(batches: seq<seq<Embedded<E>>>): seq<Embedded<E>> {
    if batches == [] then [] else Joined(batches[..|batches| - 1]) + batches[|batches| - 1]
  }

  /** Every batch is full; only the last may be smaller, but not empty. */
  predicate Batched<E>(batches: seq<seq<Embedded<E>>>, size: nat) {
    forall i | 0 <= i < |batches| ::
      0 < |batches[i]| <= size && (i < |batches| - 1 ==> |batches[i]| == size)
  }

  predicate AllFull<E>(batches: seq<seq<Embedded<E>>>, size: nat) {
    forall i | 0 <= i < |batches| :: |batches[i]| == size
  }

  // ---- The table ----------------------------------------------------------------------------

  lemma {:induction false} InsertConcat<E>(t: Table<E>, a: seq<Embedded<E>>, b: seq<Embedded<E>>)
    ensures InsertAll(t, a + b) == InsertAll(InsertAll(t, a), b)
  {
    if b == [] {
      assert a + b == a;
    } else {
      var n := |b| - 1;
      assert (a + b)[..|a| + n] == a + b[..n];
      InsertConcat(t, a, b[..n]);
    }
  }

  /** Nothing is replaced or removed, and the keys are the old ones and the new ones. */
  lemma {:induction false} InsertKeeps<E>(t: Table<E>, xs: seq<Embedded<E>>)
    ensures forall k | k in t :: k in InsertAll(t, xs) && InsertAll(t, xs)[k] == t[k]
    ensures forall x | x in xs :: KeyOf(x) in InsertAll(t, xs)
    ensures forall k | k in InsertAll(t, xs) :: k in t || exists x | x in xs :: KeyOf(x) == k
  {
    if xs != [] {
      var n := |xs| - 1;
      InsertKeeps(t, xs[..n]);
      assert xs == xs[..n] + [xs[n]];
    }
  }

  lemma {:induction false} InsertKnown<E>(t: Table<E>, xs: seq<Embedded<E>>)
    requires forall x | x in xs :: KeyOf(x) in t
    ensures InsertAll(t, xs) == t
  {
    if xs != [] {
      InsertKnown(t, xs[..|xs| - 1]);
    }
  }

  /** A second run after one that broke off: what is already there stays, and the table is that of an unbroken run. */
  lemma ResumeIsSafe<E>(t: Table<E>, sent: seq<Embedded<E>>, all: seq<Embedded<E>>)
    requires sent <= all
    ensures InsertAll(InsertAll(t, sent), all) == InsertAll(t, all)
  {
    var rest := all[|sent|..];
    assert all == sent + rest;
    var t' := InsertAll(t, sent);
    InsertConcat(t, sent, rest);
    InsertConcat(t', sent, rest);
    InsertKeeps(t, sent);
    InsertKnown(t', sent);
  }

  /** Strictly increasing keys on a fresh table: nothing is ignored. */
  lemma {:induction false} NothingIsIgnored<E>(xs: seq<Embedded<E>>)
    requires Increasing(Bare(xs))
    ensures |InsertAll(map[], xs)| == |xs|
    ensures forall x | x in xs :: KeyOf(x) in InsertAll(map[], xs) && InsertAll(map[], xs)[KeyOf(x)] == EntryOf(x)
  {
    if xs != [] {
      var n := |xs| - 1;
      var before := InsertAll(map[], xs[..n]);
      assert Bare(xs)[..n] == Bare(xs[..n]);
      NothingIsIgnored(xs[..n]);
      InsertKeeps(map[], xs[..n]);
      forall i | 0 <= i < n ensures KeyOf(xs[i]) != KeyOf(xs[n]) {
        assert Before(Bare(xs)[i], Bare(xs)[n]);
      }
      assert KeyOf(xs[n]) !in before;
      assert xs == xs[..n] + [xs[n]];
    }
  }

  /**
    Ingest and writer together, on a fresh dataset: exactly the wanted pieces are stored, each under its own key with
    its own text and the vector it was sent with, and the number of stored rows is the number of embedded chunks.
   */
  lemma {:induction false} StoredIsWanted<E>(split: string -> seq<string>, sources: seq<Source>, max: nat,
                                             sent: seq<Embedded<E>>)
    requires Bare(sent) == Wanted(split, sources, max)
    ensures
      var table := InsertAll(map[], sent);
      var wanted := Wanted(split, sources, max);
      && |table| == |sent| == |wanted|
      && (forall i | 0 <= i < |wanted| ::
            var key := Key(wanted[i].row, wanted[i].index);
            key in table && table[key] == Entry(wanted[i].text, sent[i].vector))
      && (forall k | k in table :: exists p | p in wanted :: Key(p.row, p.index) == k)
  {
    hide Flat, AllRows, InsertAll;
    var rows := AllRows(sources);
    KeysIncrease(split, rows[..Min(|rows|, max)], 0);
    var wanted := Wanted(split, sources, max);
    var table := InsertAll(map[], sent);
    NothingIsIgnored(sent);
    InsertKeeps(map[], sent);
    forall i | 0 <= i < |wanted|
      ensures
        var key := Key(wanted[i].row, wanted[i].index);
        key in table && table[key] == Entry(wanted[i].text, sent[i].vector)
    {
      assert sent[i] in sent && KeyOf(sent[i]) == Key(wanted[i].row, wanted[i].index);
    }
    forall k | k in table
      ensures exists p | p in wanted :: Key(p.row, p.index) == k
    {
      var x :| x in sent && KeyOf(x) == k;
      var i :| 0 <= i < |sent| && sent[i] == x;
      assert wanted[i] in wanted;
    }
  }

  /**
    The same, told row by row: the table has an entry under (k, i) just for each text i of each row k below the limit
    that is not blank; and it is that text.
   */
  lemma StoredRowByRow<E>(split: string -> seq<string>, sources: seq<Source>, max: nat, sent: seq<Embedded<E>>)
    requires Bare(sent) == Wanted(split, sources, max)
    ensures
      var table := InsertAll(map[], sent);
      var rows := AllRows(sources)[..Min(|AllRows(sources)|, max)];
      && (forall k: nat, i: nat, text | Yields(split, rows, k, i, text) ::
            Key(k, i) in table && table[Key(k, i)].text == text)
      && (forall key | key in table :: Yields(split, rows, key.row, key.index, table[key].text))
  {
    hide Flat, AllRows, InsertAll, Yields, Increasing, Wanted;
    var rows := AllRows(sources)[..Min(|AllRows(sources)|, max)];
    var table, wanted := InsertAll(map[], sent), Bare(sent);
    FlatIsRowByRow(split, rows);
    WantedIsFlat(split, sources, max);
    StoredIsWanted(split, sources, max, sent);
    forall k: nat, i: nat, text | Yields(split, rows, k, i, text)
      ensures Key(k, i) in table && table[Key(k, i)].text == text
    {
      assert Piece(k, i, text) in wanted;
      var j :| 0 <= j < |wanted| && wanted[j] == Piece(k, i, text);
    }
    forall key | key in table
      ensures Yields(split, rows, key.row, key.index, table[key].text)
    {
      var p :| p in wanted && Key(p.row, p.index) == key;
      var j :| 0 <= j < |wanted| && wanted[j] == p;
    }
  }

  lemma WantedIsFlat(split: string -> seq<string>, sources: seq<Source>, max: nat)
    ensures Wanted(split, sources, max) == Flat(split, AllRows(sources)[..Min(|AllRows(sources)|, max)], 0)
  {
  }

  /** Each chunk carries its own text's vector. */
  ghost predicate Own<E>(sent: seq<Embedded<E>>, vector: string -> E) {
    forall x | x in sent :: x.vector == vector(x.text)
  }

  /** The first part of the same pieces, with their own vectors, is the first part of the same sequence. */
  lemma PrefixOfOwn<E>(sent: seq<Embedded<E>>, all: seq<Embedded<E>>, vector: string -> E)
    requires Own(sent, vector) && Own(all, vector) && Bare(sent) <= Bare(all)
    ensures sent <= all
  {
    forall i | 0 <= i < |sent| ensures sent[i] == all[i] {
      assert Bare(sent)[i] == Bare(all)[i];
      assert sent[i] in sent && all[i] in all;
    }
  }

  // ---- The writer ---------------------------------------------------------------------------

  datatype Written = Total(count: nat) | SqlError

  class Store<E> {
    var table: Table<E>
    var totalChunks: nat
    /** Whether the n-th batch, and the update of the counter, fail. */
    const batchFails: nat -> bool
    const counterFails: bool
    ghost var batches: seq<seq<Embedded<E>>>

    constructor (table: Table<E>, batchFails: nat -> bool, counterFails: bool)
      ensures this.table == table && batches == []
      ensures this.batchFails == batchFails && this.counterFails == counterFails
    {
      this.table, this.totalChunks, this.batchFails, this.counterFails := table, 0, batchFails, counterFails;
      batches := [];
    }

    /** One transaction: all of the batch or nothing of it. */
    method FlushBatch(n: nat, batch: seq<Embedded<E>>) returns (r: Written)
      modifies this`table, this`batches
      ensures batchFails(n) ==> r.SqlError? && table == old(table) && batches == old(batches)
      ensures !batchFails(n) ==>
                r == Total(|batch|) && table == InsertAll(old(table), batch) && batches == old(batches) + [batch]
    {
      if batchFails(n) {
        return SqlError;
      }
      var i := 0;
      while i < |batch|
        invariant 0 <= i <= |batch| && table == InsertAll(old(table), batch[..i]) && batches == old(batches)
      {
        assert batch[..i + 1][..i] == batch[..i];
        if KeyOf(batch[i]) !in table {
          table := table[KeyOf(batch[i]) := EntryOf(batch[i])];
        }
        i := i + 1;
      }
      assert batch[..i] == batch;
      batches := batches + [batch];
      r := Total(|batch|);
    }

    /**
      Receives until the channel is closed.  The batches are the received sequence, cut; so the table does not depend
      on their size.  The count includes the ignored chunks.
     */
    method RunWriter(received: seq<Embedded<E>>, batchSize: nat) returns (r: Written, flushed: nat)
      requires batches == []
      modifies this
      ensures flushed <= |received| && Joined(batches) == received[..flushed]
      ensures Batched(batches, if batchSize == 0 then 1 else batchSize)
      ensures table == InsertAll(old(table), received[..flushed])
      ensures r.Total? ==> flushed == |received| && r.count == totalChunks == |received|
      ensures r.SqlError? ==> totalChunks == old(totalChunks) && (batchFails(|batches|) || counterFails)
    {
      hide InsertAll, Joined;
      var size: nat := if batchSize == 0 then 1 else batchSize;
      var buffer: seq<Embedded<E>> := [];
      var total, n: nat := 0, 0;
      flushed := 0;
      var i := 0;
      NothingYet(table);
      while i < |received|
        invariant flushed <= i <= |received| && buffer == received[flushed..i] && |buffer| < size
        invariant total == flushed && n == |batches| && totalChunks == old(totalChunks)
        invariant Joined(batches) == received[..flushed] && AllFull(batches, size)
        invariant table == InsertAll(old(table), received[..flushed])
      {
        buffer := buffer + [received[i]];
        i := i + 1;
        assert buffer == received[flushed..i];
        if |buffer| >= size {
          Extend(old(table), received, flushed, i, batches);
          r := FlushBatch(n, buffer);
          if r.SqlError? {
            return;
          }
          total, n, flushed, buffer := total + r.count, n + 1, i, [];
        }
      }
      if buffer != [] {
        Extend(old(table), received, flushed, i, batches);
        r := FlushBatch(n, buffer);
        if r.SqlError? {
          return;
        }
        total, flushed := total + r.count, i;
      }
      if counterFails {
        return SqlError, flushed;
      }
      totalChunks := total;
      r := Total(total);
    }
  }

  lemma NothingYet<E>(t: Table<E>)
    ensures InsertAll(t, []) == t && Joined<E>([]) == []
  {
  }

  /** The next batch. */
  lemma Extend<E>(t: Table<E>, received: seq<Embedded<E>>, done: nat, i: nat, batches: seq<seq<Embedded<E>>>)
    requires done <= i <= |received|
    ensures InsertAll(t, received[..i]) == InsertAll(InsertAll(t, received[..done]), received[done..i])
    ensures Joined(batches + [received[done..i]]) == Joined(batches) + received[done..i]
    ensures received[..i] == received[..done] + received[done..i]
  {
    hide InsertAll;
    assert received[..i] == received[..done] + received[done..i];
    InsertConcat(t, received[..done], received[done..i]);
    var more := batches + [received[done..i]];
    assert more[..|batches|] == batches;
  }
}
