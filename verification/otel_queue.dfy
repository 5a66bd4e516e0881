/** The OTEL side channel: a bounded queue that drops when full, and a loop that batches what it
    receives. `Exporter` is the value both halves share; `OtelExporter` is the object. */
module OtelQueue {
  import opened Sequences

  type Row = string

  const QUEUE_CAPACITY := 256
  const BATCH_SIZE := 32

  /** `flushes` are the batches handed to the HTTP client, delivered or not; `accepted` records every
      row that entered the queue. */
  datatype Exporter = Exporter(
    queue: seq<Row>,
    closed: bool,
    batch: seq<Row>,
    flushes: seq<seq<Row>>,
    accepted: seq<Row>,
    exited: bool)

  const FRESH := Exporter([], false, [], [], [], false)

  /** Non-blocking send: a full queue drops the row. Only for an open queue. */
  function Emit(e: Exporter, row: Row): Exporter {
    if |e.queue| < QUEUE_CAPACITY then e.(queue := e.queue + [row], accepted := e.accepted + [row])
    else e
  }

  function Flush(e: Exporter): Exporter {
    if e.batch == [] then e else e.(flushes := e.flushes + [e.batch], batch := [])
  }

  /** Moving the head of the queue to the end of the batch. */
  function Take(e: Exporter): Exporter
    requires e.queue != []
  {
    e.(queue := e.queue[1..], batch := e.batch + [e.queue[0]])
  }

  /** The receive case of the select. An open, empty queue has nothing to receive. */
  function Receive(e: Exporter): Exporter
    requires e.queue != [] || e.closed
  {
    if e.queue == [] then Flush(e).(exited := true)
    else
      var t := Take(e);
      if |t.batch| >= BATCH_SIZE then Flush(t) else t
  }

  /** Accepted rows are, in order, the flushed ones, the pending batch and the queue. */
  ghost predicate RowsKept(e: Exporter) {
    e.accepted == Flatten(e.flushes) + e.batch + e.queue
  }

  /** Batches are never empty nor longer than BATCH_SIZE; the loop leaves only when nothing is left. */
  ghost predicate Bounded(e: Exporter) {
    && |e.queue| <= QUEUE_CAPACITY
    && |e.batch| < BATCH_SIZE
    && (forall i :: 0 <= i < |e.flushes| ==> 1 <= |e.flushes[i]| <= BATCH_SIZE)
    && (e.exited ==> e.closed && e.queue == [] && e.batch == [])
  }

  ghost predicate Conserves(e: Exporter) {
    RowsKept(e) && Bounded(e)
  }

  lemma EmitConserves(e: Exporter, row: Row)
    requires Conserves(e) && !e.closed
    ensures Conserves(Emit(e, row))
    ensures Emit(e, row).accepted == if |e.queue| == 256 then e.accepted else e.accepted + [row]
  {
    assert Flatten(e.flushes) + e.batch + (e.queue + [row]) == (Flatten(e.flushes) + e.batch + e.queue) + [row];
  }

  lemma FlushKeepsRows(e: Exporter)
    requires RowsKept(e)
    ensures RowsKept(Flush(e))
  {
    if e.batch != [] {
      FlattenSnoc(e.flushes, e.batch);
      var done := Flatten(e.flushes) + e.batch;
      assert done + [] == done;
    }
  }

  lemma TakeKeepsRows(e: Exporter)
    requires RowsKept(e) && e.queue != []
    ensures RowsKept(Take(e))
  {
    var front := Flatten(e.flushes);
    assert [e.queue[0]] + e.queue[1..] == e.queue;
    assert front + (e.batch + [e.queue[0]]) + e.queue[1..] == front + e.batch + ([e.queue[0]] + e.queue[1..]);
  }

  lemma FlushConserves(e: Exporter)
    requires Conserves(e)
    ensures Conserves(Flush(e))
  {
    FlushKeepsRows(e);
  }

  lemma {:induction false} ReceiveKeepsRows(e: Exporter)
    requires RowsKept(e) && (e.queue != [] || e.closed)
    ensures RowsKept(Receive(e))
  {
    if e.queue == [] {
      FlushKeepsRows(e);
    } else {
      TakeKeepsRows(e);
      FlushKeepsRows(Take(e));
    }
  }

  lemma {:induction false} ReceiveStaysBounded(e: Exporter)
    requires Bounded(e) && !e.exited && (e.queue != [] || e.closed)
    ensures Bounded(Receive(e))
  {
  }

  /** A receive flushes exactly if it fills the batch, or finds the queue at its end and a batch to flush. */
  lemma {:induction false} ReceiveConserves(e: Exporter)
    requires Conserves(e) && !e.exited && (e.queue != [] || e.closed)
    ensures Conserves(Receive(e))
    ensures |Receive(e).flushes| > |e.flushes| <==> if e.queue == [] then e.batch != [] else |e.batch| == 31
  {
    ReceiveKeepsRows(e);
    ReceiveStaysBounded(e);
  }

  /** The rows, of those offered one after the other, that found room: `found` is the length of the queue
      each of them met. */
  function Admitted(rows: seq<Row>, found: seq<nat>): seq<Row>
    requires |rows| == |found|
  {
    if rows == [] then []
    else
      var n := |rows| - 1;
      Admitted(rows[..n], found[..n]) + if found[n] < QUEUE_CAPACITY then [rows[n]] else []
  }

  lemma AdmittedSnoc(rows: seq<Row>, found: seq<nat>, row: Row, n: nat)
    requires |rows| == |found|
    ensures Admitted(rows + [row], found + [n]) == Admitted(rows, found) + if n < QUEUE_CAPACITY then [row] else []
  {
    assert (rows + [row])[..|rows|] == rows && (found + [n])[..|found|] == found;
  }

  lemma {:induction false} AdmittedInOrder(rows: seq<Row>, found: seq<nat>)
    requires |rows| == |found|
    ensures Subsequence(Admitted(rows, found), rows)
  {
    if rows != [] {
      var n := |rows| - 1;
      AdmittedInOrder(rows[..n], found[..n]);
      SubsequenceSnoc(Admitted(rows[..n], found[..n]), rows[..n], rows[n]);
      assert rows[..n] + [rows[n]] == rows;
      assert Admitted(rows[..n], found[..n]) + [] == Admitted(rows[..n], found[..n]);
    }
  }

  /** All of them, exactly if each found room. */
  lemma {:induction false} AllAdmittedIff(rows: seq<Row>, found: seq<nat>)
    requires |rows| == |found|
    ensures |Admitted(rows, found)| <= |rows|
    ensures Admitted(rows, found) == rows <==> forall i :: 0 <= i < |found| ==> found[i] < QUEUE_CAPACITY
  {
    if rows != [] {
      var n := |rows| - 1;
      AllAdmittedIff(rows[..n], found[..n]);
      if Admitted(rows, found) == rows {
        assert found[n] < QUEUE_CAPACITY;
        assert Admitted(rows[..n], found[..n]) == Admitted(rows, found)[..n];
      }
      assert rows[..n] + [rows[n]] == rows;
    }
  }

  /** Rows waiting: a queued row will be received and then flushed, a batched row only flushed. */
  function Backlog(e: Exporter): nat {
    2 * |e.queue| + |e.batch| + if e.exited then 0 else 1
  }

  lemma ReceiveShrinks(e: Exporter)
    requires !e.exited && (e.queue != [] || e.closed)
    ensures Backlog(Receive(e)) < Backlog(e)
  {
  }

  /** The exporter object; its loop runs in a goroutine of its own. */
  class OtelExporter {
    var ch: seq<Row>
    var chClosed: bool
    var batch: seq<Row>
    var done: bool
    ghost var flushes: seq<seq<Row>>
    ghost var accepted: seq<Row>

    constructor ()
      ensures Model() == FRESH
    {
      ch, chClosed, batch, done, flushes, accepted := [], false, [], false, [], [];
    }

    ghost function Model(): Exporter
      reads this
    {
      Exporter(ch, chClosed, batch, flushes, accepted, done)
    }

    method EmitRow(row: Row)
      requires !chClosed
      modifies this
      ensures Model() == Emit(old(Model()), row)
      ensures |old(ch)| < 256 ==> ch == old(ch) + [row] && accepted == old(accepted) + [row]
      ensures |old(ch)| >= 256 ==> ch == old(ch) && accepted == old(accepted)
    {
      if |ch| < QUEUE_CAPACITY {
        ch := ch + [row];
        accepted := accepted + [row];
      }
    }

    /** Marshal, post, and reset the batch whatever the outcome was. */
    method FlushBatch()
      modifies this
      ensures Model() == Flush(old(Model()))
      ensures batch == [] && ch == old(ch) && accepted == old(accepted)
      ensures flushes == old(flushes) + if old(batch) == [] then [] else [old(batch)]
    {
      if |batch| == 0 {
        return;
      }
      flushes := flushes + [batch];
      batch := [];
    }

    /** One pass through the select, on whichever of its ready cases was chosen. A row is only added to
        the batch, unless it makes the batch full; a tick, or the end of a closed queue, flushes. */
    method Select(tick: bool)
      requires tick || ch != [] || chClosed
      modifies this
      ensures Model() == if tick then Flush(old(Model())) else Receive(old(Model()))
      ensures tick || old(ch) == [] ==> batch == [] && ch == old(ch)
      ensures tick || old(ch) == [] ==> flushes == old(flushes) + if old(batch) == [] then [] else [old(batch)]
      ensures !tick && old(ch) != [] ==> ch == old(ch)[1..]
      ensures !tick && old(ch) != [] && |old(batch)| < 31 ==>
                batch == old(batch) + [old(ch)[0]] && flushes == old(flushes)
      ensures !tick && old(ch) != [] && |old(batch)| >= 31 ==>
                batch == [] && flushes == old(flushes) + [old(batch) + [old(ch)[0]]]
      ensures accepted == old(accepted) && done == (old(done) || (!tick && old(ch) == []))
    {
      if tick {
        FlushBatch();
        return;
      }
      if |ch| == 0 {
        FlushBatch();
        done := true;
        return;
      }
      var row := ch[0];
      ch, batch := ch[1..], batch + [row];
      if |batch| >= BATCH_SIZE {
        FlushBatch();
      }
    }

    /** close(): no more sends, then wait for the loop. However its ticks fall, by the time the loop
        is gone every accepted row is in the flushes, in order. */
    method Close(ticks: seq<bool>)
      requires Conserves(Model()) && !done && !chClosed
      modifies this
      ensures done && Conserves(Model())
      ensures accepted == old(accepted) == Flatten(flushes)
      ensures old(flushes) <= flushes
    {
      chClosed := true;
      assert Model() == old(Model()).(closed := true);
      var i := 0;
      while !done
        invariant chClosed && accepted == old(accepted) && old(flushes) <= flushes
        invariant Conserves(Model()) && 0 <= i <= |ticks|
        decreases Backlog(Model()), |ticks| - i
      {
        var tick := i < |ticks| && ticks[i];
        if i < |ticks| {
          i := i + 1;
        }
        Turn(tick);
      }
    }

    method Turn(tick: bool)
      requires Conserves(Model()) && !done && chClosed
      modifies this
      ensures Conserves(Model()) && chClosed && accepted == old(accepted) && old(flushes) <= flushes
      ensures Backlog(Model()) < old(Backlog(Model())) || (tick && Backlog(Model()) == old(Backlog(Model())))
    {
      if tick {
        FlushConserves(Model());
      } else {
        ReceiveConserves(Model());
        ReceiveShrinks(Model());
      }
      Select(tick);
    }
  }
}
