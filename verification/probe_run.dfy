/** The probe's shutdown as the program has it: a nullable field under a mutex, the drain goroutine,
    and `stop`. Each method records the steps of `ProbeShutdown` it takes, so everything proved of
    interleavings holds after every call; between its own steps the drain lets the others move. */
module ProbeRun {
  import opened Options
  import opened OtelQueue
  import opened ProbeShutdown
  import opened ProbeTheorems
  import opened Sequences
  import opened Surroundings

  class RingReader {
    var closes: nat

    constructor ()
      ensures closes == 0
    {
      closes := 0;
    }

    method Close()
      modifies this
      ensures closes == old(closes) + 1
    {
      closes := closes + 1;
    }
  }

  /** What a read gives: a record, or an error. */
  datatype ReadResult = Record(row: Row) | Failed

  class Run {
    const otel: OtelExporter?
    /** The reader, once it is open, and the field in which the goroutines find it. */
    var reader: RingReader?
    var ringRD: RingReader?
    var cancelled: bool
    /** Where `stop` is, and the reader it has taken out of the field. */
    var stopAt: StopPC
    var taken: RingReader?
    var file: seq<Row>
    ghost var steps: seq<Action>
    ghost var model: State

    constructor (otel: OtelExporter?)
      requires otel != null ==> otel.Model() == FRESH
      ensures Valid() && this.otel == otel && file == [] && model == Init(otel != null) && reader == null
    {
      this.otel := otel;
      reader, ringRD, cancelled, stopAt, taken, file := null, null, false, NotBegun, null, [];
      steps, model := [], Init(otel != null);
    }

    ghost predicate Valid()
      reads this, reader, otel
    {
      After(otel != null, steps) == Some(model) && ReaderMatches() && StopMatches() && QueueMatches()
    }

    ghost predicate ReaderMatches()
      reads this, reader
    {
      && model.slot == (ringRD != null) && (ringRD != null ==> ringRD == reader)
      && model.created == (reader != null) && model.closes == (if reader == null then 0 else reader.closes)
    }

    ghost predicate StopMatches()
      reads this
    {
      && model.stop == stopAt && model.cancelled == cancelled
      && (taken != null ==> taken == reader && stopAt == CloseTaken(true))
      && (stopAt.CloseTaken? ==> stopAt.taken == (taken != null))
    }

    ghost predicate QueueMatches()
      reads this, otel
    {
      && model.exporting == (otel != null) && model.rows.written == file
      && model.otel == if otel == null then FRESH.(exited := true) else otel.Model()
    }

    ghost function Owned(): set<object>
      reads this
    {
      {this} + (if reader == null then {} else {reader}) + (if otel == null then {} else {otel})
    }

    ghost method Step(a: Action)
      requires After(otel != null, steps) == Some(model) && Enabled(model, a)
      modifies this`steps, this`model
      ensures steps == old(steps) + [a] && model == Apply(old(model), a) && After(otel != null, steps) == Some(model)
    {
      AfterStep(otel != null, steps, a);
      steps, model := steps + [a], Apply(model, a);
    }

    // ---------------------------------------------------------------- critical sections

    method RegisterRingbufReader(rd: RingReader)
      requires Valid() && model.drain == Register && rd == reader
      modifies this
      ensures Valid() && model == Apply(old(model), Registered) && reader == old(reader) && old(steps) <= steps
    {
      ringRD := rd;
      Step(Registered);
    }

    /** `stop` takes whatever reader is registered, under the lock ... */
    method TakeReader()
      requires Valid() && stopAt == StopPC.TakeReader
      modifies this
      ensures Valid() && model == Apply(old(model), Take) && reader == old(reader) && old(steps) <= steps
    {
      taken, ringRD := ringRD, null;
      stopAt := CloseTaken(taken != null);
      Step(Take);
    }

    /** ... and closes it outside. */
    method CloseTakenReader()
      requires Valid() && stopAt.CloseTaken?
      modifies this, reader
      ensures Valid() && model == Apply(old(model), CloseReader) && reader == old(reader) && old(steps) <= steps
    {
      if taken != null {
        taken.Close();
      }
      taken, stopAt := null, JoinDrain;
      Step(CloseReader);
    }

    /** The drain's deferred release: closes the reader only if it is still the registered one. */
    method ReleaseRingbufReader(rd: RingReader)
      requires Valid() && model.drain == Release && rd == reader
      modifies this, reader
      ensures Valid() && model == Apply(old(model), Released) && reader == old(reader) && old(steps) <= steps
    {
      if ringRD == rd {
        ringRD := null;
        rd.Close();
      }
      Step(Released);
    }

    // ---------------------------------------------------------------- the other goroutines

    /** The next step of `stop` up to its wait for the drain; none while it waits. */
    method StopStep()
      requires Valid() && stopAt in {NotBegun, StopPC.TakeReader, CloseTaken(true), CloseTaken(false), JoinDrain}
      modifies this, reader
      ensures Valid() && Unmoved(old(model)) && reader == old(reader) && old(steps) <= steps
      ensures stopAt in {StopPC.TakeReader, CloseTaken(true), CloseTaken(false), JoinDrain}
      ensures old(stopAt) == JoinDrain ==> stopAt == JoinDrain
      ensures old(stopAt) != JoinDrain ==> StopRank(stopAt) < StopRank(old(stopAt))
    {
      if stopAt == NotBegun {
        cancelled, stopAt := true, StopPC.TakeReader;
        Step(Cancel);
      } else if stopAt == StopPC.TakeReader {
        TakeReader();
      } else if stopAt != JoinDrain {
        CloseTakenReader();
      }
    }

    /** A tick of the exporter's loop, or a receive if there is something to receive. */
    method LoopStep(tick: bool)
      requires Valid() && otel != null && !otel.done && (tick || otel.ch != [] || otel.chClosed)
      modifies this, otel
      ensures Valid() && reader == old(reader) && old(steps) <= steps
      ensures model == Apply(old(model), if tick then LoopTick else LoopReceive)
    {
      otel.Select(tick);
      Step(if tick then LoopTick else LoopReceive);
    }

    /** The drain's own place and rows are as they were; a cancelled context stays cancelled. */
    ghost predicate Unmoved(before: State)
      reads this
    {
      && model.drain == before.drain && model.rows == before.rows && model.openFailed == before.openFailed
      && (before.cancelled ==> model.cancelled)
    }

    /** Any steps of `stop`, of the exporter's loop and of the parent context. */
    method Meanwhile()
      requires Valid() && model.drain != Finished
      modifies Owned()
      ensures Valid() && Unmoved(old(model)) && reader == old(reader) && old(steps) <= steps
    {
      var n: nat := *;
      while n > 0
        invariant Valid() && Unmoved(old(model)) && reader == old(reader) && old(steps) <= steps
      {
        OtherStep();
        n := n - 1;
      }
    }

    method OtherStep()
      requires Valid() && model.drain != Finished
      modifies Owned()
      ensures Valid() && Unmoved(old(model)) && reader == old(reader) && old(steps) <= steps
    {
      BeforeDrainEnds(otel != null, steps);
      var which: int := *;
      if which == 0 {
        StopStep();
      } else if which == 1 {
        ParentStep();
      } else {
        LoopMayStep();
      }
    }

    method ParentStep()
      requires Valid()
      modifies this
      ensures Valid() && Unmoved(old(model)) && reader == old(reader) && old(steps) <= steps
    {
      cancelled := true;
      Step(ParentCancel);
    }

    method LoopMayStep()
      requires Valid()
      modifies this, otel
      ensures Valid() && Unmoved(old(model)) && reader == old(reader) && old(steps) <= steps
    {
      if otel != null && !otel.done {
        var tick := Happens();
        if tick || otel.ch != [] {
          LoopStep(tick);
        }
      }
    }

    // ---------------------------------------------------------------- the drain goroutine

    /** The drain at the top of its loop, with everything read so far in the file. */
    ghost predicate InLoopAt(d: DrainPC, rd: RingReader, read: seq<Row>)
      reads this, reader, otel
    {
      Valid() && model.drain == d && reader == rd && model.rows.read == read
    }

    /** Encode a row into the file and offer it to the exporter. */
    method EmitRow(rd: RingReader, row: Row, ghost read: seq<Row>)
      requires InLoopAt(Emitting(row), rd, read)
      modifies this, otel
      ensures InLoopAt(CheckContext, rd, read) && old(steps) <= steps && file == old(file) + [row]
    {
      BeforeDrainEnds(otel != null, steps);
      file := file + [row];
      if otel != null {
        otel.EmitRow(row);
      }
      Step(RowEmitted);
    }

    /** The check at the top of the loop: a cancelled context ends it. */
    method ContextCheck(rd: RingReader, ghost read: seq<Row>) returns (more: bool)
      requires InLoopAt(CheckContext, rd, read)
      modifies Owned()
      ensures old(steps) <= steps && InLoopAt(if more then Reading else Release, rd, read) && (!more ==> cancelled)
    {
      Meanwhile();
      more := !cancelled;
      Step(ContextChecked);
    }

    /** One read and what is done with it. An error ends the loop only on a cancelled context. */
    method DrainRecord(rd: RingReader, result: ReadResult, ghost read: seq<Row>) returns (more: bool)
      requires InLoopAt(Reading, rd, read)
      modifies Owned()
      ensures old(steps) <= steps
      ensures InLoopAt(if more then CheckContext else Release, rd, read + Made(result))
      ensures result.Failed? && old(cancelled) ==> !more
      ensures !more ==> cancelled
    {
      match result
      case Record(row) =>
        RecordArrives(rd, row, read);
        more := true;
      case Failed =>
        more := ReadFails(rd, read);
        assert read + [] == read;
    }

    method RecordArrives(rd: RingReader, row: Row, ghost read: seq<Row>)
      requires InLoopAt(Reading, rd, read)
      modifies Owned()
      ensures old(steps) <= steps && InLoopAt(CheckContext, rd, read + [row])
    {
      Step(RecordRead(row));
      Meanwhile();
      EmitRow(rd, row, read + [row]);
    }

    method ReadFails(rd: RingReader, ghost read: seq<Row>) returns (more: bool)
      requires InLoopAt(Reading, rd, read)
      modifies Owned()
      ensures old(steps) <= steps && InLoopAt(if more then CheckContext else Release, rd, read)
      ensures old(cancelled) ==> !more
      ensures !more ==> cancelled
    {
      Step(ReadError);
      Meanwhile();
      more := !cancelled;
      Step(ErrorChecked);
    }

    /** The drain loop over the reads the kernel gives; when it gives no more, the loop waits in Read
        until `stop` has closed the reader. It takes all of them, unless it is cut short by finding its
        context cancelled. */
    method DrainRecords(rd: RingReader, results: seq<ReadResult>) returns (used: nat, ghost cut: bool)
      requires InLoopAt(CheckContext, rd, [])
      modifies Owned()
      ensures used <= |results| && InLoopAt(Release, rd, RowsOf(results[..used])) && old(steps) <= steps
      ensures cancelled && (!cut ==> used == |results|)
    {
      used, cut := 0, false;
      assert RowsOf(results[..0]) == [];
      var more := true;
      while more
        invariant used <= |results| && old(steps) <= steps && (!more ==> cancelled)
        invariant InLoopAt(if more then CheckContext else Release, rd, RowsOf(results[..used]))
        invariant !more && !cut ==> used == |results|
        decreases more, |results| - used
      {
        more := ContextCheck(rd, RowsOf(results[..used]));
        cut := !more;
        if more && used < |results| {
          RowsOfSnoc(results, used);
          more := DrainRecord(rd, results[used], RowsOf(results[..used]));
          used := used + 1;
          cut := !more;
        } else if more {
          more := LastRead(rd, RowsOf(results[..used]));
        }
      }
    }

    method LastRead(rd: RingReader, ghost read: seq<Row>) returns (more: bool)
      requires InLoopAt(Reading, rd, read)
      modifies Owned()
      ensures old(steps) <= steps && !more && InLoopAt(Release, rd, read) && cancelled
    {
      StopUntilClosed();
      more := DrainRecord(rd, Failed, read);
      assert read + [] == read;
    }

    /** Nothing more comes from the kernel: `stop` runs up to where it waits for the drain. */
    method StopUntilClosed()
      requires Valid() && model.drain == Reading
      modifies Owned()
      ensures Valid() && Unmoved(old(model)) && reader == old(reader) && old(steps) <= steps
      ensures stopAt == JoinDrain && cancelled
    {
      BeforeDrainEnds(otel != null, steps);
      StopUpToJoin();
      BeforeDrainEnds(otel != null, steps);
    }

    method StopUpToJoin()
      requires Valid() && stopAt in {NotBegun, StopPC.TakeReader, CloseTaken(true), CloseTaken(false), JoinDrain}
      modifies this, reader
      ensures Valid() && Unmoved(old(model)) && reader == old(reader) && old(steps) <= steps && stopAt == JoinDrain
    {
      while stopAt != JoinDrain
        invariant Valid() && Unmoved(old(model)) && reader == old(reader) && old(steps) <= steps
        invariant stopAt in {NotBegun, StopPC.TakeReader, CloseTaken(true), CloseTaken(false), JoinDrain}
        decreases StopRank(stopAt)
      {
        StopStep();
      }
    }

    /** The goroutine: open, register, drain, release. Whatever the others do meanwhile, the file ends
        up with the rows of the records read, in order. */
    method DrainRingbuf(results: seq<ReadResult>) returns (used: nat, ghost cut: bool)
      requires Valid() && model.drain == Launched && model.rows == Rows([], [], []) && reader == null
      modifies Owned()
      ensures Valid() && model.drain == Finished && old(steps) <= steps
      ensures used <= |results| && file == RowsOf(results[..used]) && (!cut ==> used == |results|)
      ensures Exported()
    {
      used := 0;
      assert RowsOf(results[..0]) == [];
      Meanwhile();
      var failed := Happens();
      cut := failed;
      if failed {
        Step(NoReader);
      } else {
        used, cut := DrainOpened(results);
      }
      RowsReadAreKept(otel != null, steps);
    }

    method DrainOpened(results: seq<ReadResult>) returns (used: nat, ghost cut: bool)
      requires Valid() && model.drain == Launched && model.rows == Rows([], [], []) && reader == null
      modifies Owned()
      ensures Valid() && model.drain == Finished && old(steps) <= steps
      ensures used <= |results| && model.rows.read == RowsOf(results[..used]) && (!cut ==> used == |results|)
    {
      var rd := OpenReader();
      RegisterNext(rd);
      var fileOpened := OpenFileNext(rd);
      used, cut := 0, !fileOpened;
      assert RowsOf(results[..0]) == [];
      if fileOpened {
        used, cut := DrainRecords(rd, results);
      }
      ReleaseNext(rd, RowsOf(results[..used]));
    }

    method RegisterNext(rd: RingReader)
      requires InLoopAt(Register, rd, [])
      modifies Owned()
      ensures InLoopAt(OpenFile, rd, []) && old(steps) <= steps
    {
      Meanwhile();
      RegisterRingbufReader(rd);
    }

    method OpenFileNext(rd: RingReader) returns (fileOpened: bool)
      requires InLoopAt(OpenFile, rd, [])
      modifies Owned()
      ensures InLoopAt(if fileOpened then CheckContext else Release, rd, []) && old(steps) <= steps
    {
      Meanwhile();
      fileOpened := Happens();
      Step(FileOpened(fileOpened));
    }

    method ReleaseNext(rd: RingReader, ghost read: seq<Row>)
      requires InLoopAt(Release, rd, read)
      modifies Owned()
      ensures InLoopAt(Finished, rd, read) && old(steps) <= steps
    {
      Meanwhile();
      ReleaseRingbufReader(rd);
    }

    method OpenReader() returns (rd: RingReader)
      requires Valid() && model.drain == Launched && reader == null
      modifies this
      ensures Valid() && model == Apply(old(model), ReaderOpened) && reader == rd && fresh(rd) && old(steps) <= steps
    {
      rd := new RingReader();
      reader := rd;
      Step(ReaderOpened);
    }

    // ---------------------------------------------------------------- the rest of stop

    /** The exporter accepted, in order, the rows of the file that found room in its queue, which are all
        of them if it was never full. */
    ghost predicate Exported()
      reads this, otel
    {
      otel != null ==>
        && |model.rows.found| == |file| && otel.accepted == Admitted(file, model.rows.found)
        && (otel.accepted == file <==> forall i :: 0 <= i < |file| ==> model.rows.found[i] < 256)
    }

    /** `stop` from wherever it is, once the drain is through: the reader has been closed exactly once,
        and every row the exporter accepted is in its flushes. */
    method Stop(ticks: nat)
      requires Valid() && model.drain == Finished
      requires stopAt in {NotBegun, StopPC.TakeReader, CloseTaken(true), CloseTaken(false), JoinDrain}
      modifies Owned()
      ensures Valid() && stopAt == Stopped && reader == old(reader) && file == old(file) && old(steps) <= steps
      ensures reader != null ==> reader.closes == 1
      ensures otel != null ==> otel.accepted == Flatten(otel.flushes)
      ensures Exported()
    {
      StopUpToJoin();
      DrainIsJoined();
      CloseExporterQueue();
      JoinExporterLoop(ticks);
      LoopIsJoined();
      StoppedObject();
    }

    method DrainIsJoined()
      requires Valid() && stopAt == JoinDrain && model.drain == Finished
      modifies this
      ensures Valid() && Unmoved(old(model)) && reader == old(reader) && old(steps) <= steps && stopAt == CloseQueue
    {
      stopAt := CloseQueue;
      Step(DrainJoined);
    }

    method CloseExporterQueue()
      requires Valid() && stopAt == CloseQueue
      modifies this, otel
      ensures Joining(old(model), old(reader)) && old(steps) <= steps
    {
      if otel != null {
        otel.chClosed := true;
      }
      stopAt := JoinLoop;
      Step(QueueClose);
    }

    method LoopIsJoined()
      requires Valid() && stopAt == JoinLoop && model.otel.exited
      modifies this
      ensures Valid() && Unmoved(old(model)) && reader == old(reader) && old(steps) <= steps && stopAt == Stopped
    {
      stopAt := Stopped;
      Step(LoopJoined);
    }

    /** What the theorems on interleavings say of the object after `stop`. */
    lemma StoppedObject()
      requires Valid() && stopAt == Stopped
      ensures reader != null ==> reader.closes == 1
      ensures otel != null ==> otel.accepted == Flatten(otel.flushes)
      ensures Exported()
    {
      ReaderClosedOnce(otel != null, steps);
      RowsConserved(otel != null, steps);
      RowsReadAreKept(otel != null, steps);
    }

    /** `stop` waits for the loop; everything else is as it was. */
    ghost predicate Joining(before: State, rd: RingReader?)
      reads this, reader, otel
    {
      Valid() && stopAt == JoinLoop && Unmoved(before) && reader == rd && (otel != null ==> otel.chClosed)
    }

    method JoinExporterLoop(ticks: nat)
      requires Joining(model, reader)
      modifies this, otel
      ensures Joining(old(model), old(reader)) && old(steps) <= steps && model.otel.exited
    {
      var left := ticks;
      while otel != null && !otel.done
        invariant Joining(old(model), old(reader)) && old(steps) <= steps
        decreases left, if otel == null then 0 else Backlog(otel.Model())
      {
        left := LoopTurn(left, old(model), old(reader));
      }
    }

    method LoopTurn(left: nat, ghost before: State, ghost rd: RingReader?) returns (left': nat)
      requires otel != null && !otel.done && Joining(before, rd)
      modifies this, otel
      ensures Joining(before, rd) && old(steps) <= steps
      ensures left' < left || (left' == left && Backlog(otel.Model()) < old(Backlog(otel.Model())))
    {
      var tick := Happens();
      left' := left;
      if tick && left > 0 {
        left' := left - 1;
        LoopStep(true);
      } else {
        ReceiveTurn(before, rd);
      }
    }

    method ReceiveTurn(ghost before: State, ghost rd: RingReader?)
      requires otel != null && !otel.done && Joining(before, rd)
      modifies this, otel
      ensures Joining(before, rd) && old(steps) <= steps && Backlog(otel.Model()) < old(Backlog(otel.Model()))
    {
      ReceiveShrinks(otel.Model());
      LoopStep(false);
    }
  }

  function Made(result: ReadResult): seq<Row> {
    if result.Record? then [result.row] else []
  }

  /** The rows of the records among the results of reads. */
  function RowsOf(results: seq<ReadResult>): seq<Row> {
    if results == [] then [] else RowsOf(results[..|results| - 1]) + Made(results[|results| - 1])
  }

  lemma RowsOfSnoc(results: seq<ReadResult>, n: nat)
    requires n < |results|
    ensures RowsOf(results[..n + 1]) == RowsOf(results[..n]) + Made(results[n])
  {
    assert results[..n + 1][..n] == results[..n];
  }
}
