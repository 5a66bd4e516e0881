/** The probe's shutdown as an interleaving of three goroutines: `stop`, the ring drain and the OTEL
    loop. A step is one indivisible action of one of them (or of their surroundings: the kernel
    delivering a record, a read failing, the parent context being cancelled, the flush ticker). */
module ProbeShutdown {
  import opened Sequences
  import opened Options
  import opened OtelQueue

  /** probeRun.stop. `CloseTaken` is the window between unlocking the mutex and closing the reader. */
  datatype StopPC = NotBegun | TakeReader | CloseTaken(taken: bool) | JoinDrain | CloseQueue | JoinLoop | Stopped

  /** drainRingbuf and the loop inside it; `Finished` is after the wait group was told. */
  datatype DrainPC =
    | Launched | Register | OpenFile | CheckContext | Reading | Emitting(row: Row) | ReadFailed | Release | Finished

  /** Rows made from the records read, those written to events.ndjson so far, and how many rows each of
      these found in the exporter's queue. */
  datatype Rows = Rows(read: seq<Row>, written: seq<Row>, found: seq<nat>)

  /** `slot` says whether the mutex-guarded field holds the reader; there is only ever one reader.
      `closes` counts calls of Close on it. `openFailed` records that events.ndjson did not open.
      `panicked` records a send on, or second close of, the queue. */
  datatype State = State(
    stop: StopPC,
    drain: DrainPC,
    cancelled: bool,
    created: bool,
    slot: bool,
    closes: nat,
    openFailed: bool,
    panicked: bool,
    exporting: bool,
    rows: Rows,
    otel: Exporter)

  /** Without an endpoint there is no exporter, hence no loop to wait for. */
  function Init(exporting: bool): State {
    State(NotBegun, Launched, false, false, false, 0, false, false, exporting, Rows([], [], []),
          FRESH.(exited := !exporting))
  }

  datatype Action =
    | ParentCancel
    | Cancel | Take | CloseReader | DrainJoined | QueueClose | LoopJoined
    | NoReader | ReaderOpened | Registered | FileOpened(ok: bool) | ContextChecked
    | RecordRead(row: Row) | ReadError | RowEmitted | ErrorChecked | Released
    | LoopReceive | LoopTick

  predicate Enabled(s: State, a: Action) {
    match a
    case ParentCancel => true
    case Cancel => s.stop == NotBegun
    case Take => s.stop == TakeReader
    case CloseReader => s.stop.CloseTaken?
    case DrainJoined => s.stop == JoinDrain && s.drain == Finished
    case QueueClose => s.stop == CloseQueue
    case LoopJoined => s.stop == JoinLoop && s.otel.exited
    case NoReader => s.drain == Launched
    case ReaderOpened => s.drain == Launched
    case Registered => s.drain == Register
    case FileOpened(_) => s.drain == OpenFile
    case ContextChecked => s.drain == CheckContext
    case RecordRead(_) => s.drain == Reading
    case ReadError => s.drain == Reading
    case RowEmitted => s.drain.Emitting?
    case ErrorChecked => s.drain == ReadFailed
    case Released => s.drain == Release
    case LoopReceive => s.exporting && !s.otel.exited && (s.otel.queue != [] || s.otel.closed)
    case LoopTick => s.exporting && !s.otel.exited
  }

  function Apply(s: State, a: Action): State
    requires Enabled(s, a)
  {
    match a
    case ParentCancel => s.(cancelled := true)
    case Cancel => s.(stop := TakeReader, cancelled := true)
    case Take => s.(stop := CloseTaken(s.slot), slot := false)
    case CloseReader => s.(stop := JoinDrain, closes := if s.stop.taken then s.closes + 1 else s.closes)
    case DrainJoined => s.(stop := CloseQueue)
    case QueueClose =>
      s.(stop := JoinLoop, panicked := s.panicked || (s.exporting && s.otel.closed),
         otel := if s.exporting then s.otel.(closed := true) else s.otel)
    case LoopJoined => s.(stop := Stopped)
    case NoReader => s.(drain := Finished)
    case ReaderOpened => s.(drain := Register, created := true)
    case Registered => s.(drain := OpenFile, slot := true)
    case FileOpened(ok) => s.(drain := if ok then CheckContext else Release, openFailed := !ok)
    case ContextChecked => s.(drain := if s.cancelled then Release else Reading)
    case RecordRead(row) => s.(drain := Emitting(row), rows := s.rows.(read := s.rows.read + [row]))
    case ReadError => s.(drain := ReadFailed)
    case RowEmitted =>
      s.(drain := CheckContext, panicked := s.panicked || (s.exporting && s.otel.closed),
         rows := s.rows.(written := s.rows.written + [s.drain.row], found := s.rows.found + [|s.otel.queue|]),
         otel := if s.exporting && !s.otel.closed then Emit(s.otel, s.drain.row) else s.otel)
    case ErrorChecked => s.(drain := if s.cancelled then Release else CheckContext)
    case Released =>
      // under the mutex: only the goroutine that still finds the reader in the field closes it
      s.(drain := Finished, closes := if s.slot then s.closes + 1 else s.closes, slot := false)
    case LoopReceive => s.(otel := Receive(s.otel))
    case LoopTick => s.(otel := Flush(s.otel))
  }

  /** Steps a goroutine takes on its own. A read on an open reader is not one of them: it waits for
      the kernel. On a closed reader it returns an error at once. */
  predicate OwnStep(s: State, a: Action) {
    && Enabled(s, a)
    && a != ParentCancel && a != Cancel
    && !a.RecordRead? && a != LoopTick
    && (a == ReadError ==> s.closes > 0)
  }

  predicate DrainStep(a: Action) {
    a.NoReader? || a.ReaderOpened? || a.Registered? || a.FileOpened? || a.ContextChecked?
    || a.RecordRead? || a.ReadError? || a.RowEmitted? || a.ErrorChecked? || a.Released?
  }

  // ------------------------------------------------------------------ the invariant

  predicate InLoop(d: DrainPC) {
    d in {CheckContext, Reading, ReadFailed} || d.Emitting?
  }

  /** The reader is in the field, or on its way to being closed by `stop`, or closed: one of the three. */
  ghost predicate ReaderOwned(s: State) {
    var held := if s.slot then 1 else 0;
    var taken := if s.stop.CloseTaken? && s.stop.taken then 1 else 0;
    var unregistered := if s.created && s.drain == Register then 1 else 0;
    && held + taken + unregistered + s.closes == (if s.created then 1 else 0)
    && (s.drain in {Launched} ==> !s.created)
    && (s.drain in {Register, OpenFile, Release} || InLoop(s.drain) ==> s.created)
    && (s.drain == Finished ==> !s.slot)
  }

  ghost predicate Cancelled(s: State) {
    && (s.stop != NotBegun ==> s.cancelled)
    && (s.drain == Release ==> s.cancelled || s.openFailed)
    && (s.openFailed ==> s.created && s.drain in {Release, Finished})
    && (s.closes > 0 && !s.cancelled ==> s.openFailed && s.drain == Finished)
    // a reader registered after `stop` looked for one is never read from
    && (s.stop !in {NotBegun, TakeReader} && s.slot ==> s.drain in {OpenFile, CheckContext, Release})
    && (s.stop !in {NotBegun, TakeReader} && s.drain == Reading ==>
          s.closes == 1 || s.stop == CloseTaken(true))
  }

  ghost predicate QueueOrdered(s: State) {
    && !s.panicked
    && (s.stop in {CloseQueue, JoinLoop, Stopped} ==> s.drain == Finished)
    && (if s.exporting then Conserves(s.otel) && (s.otel.closed <==> s.stop in {JoinLoop, Stopped})
        else s.otel == FRESH.(exited := true))
    && (s.stop == Stopped ==> s.otel.exited)
  }

  /** Every row read is in the file, or about to be; what the exporter accepted is what the file has,
      less the rows that found a full queue. */
  ghost predicate RowsInOrder(s: State) {
    && s.rows.read == s.rows.written + (if s.drain.Emitting? then [s.drain.row] else [])
    && |s.rows.found| == |s.rows.written|
    && s.otel.accepted == if s.exporting then Admitted(s.rows.written, s.rows.found) else []
  }

  ghost predicate Invariant(s: State) {
    ReaderOwned(s) && Cancelled(s) && QueueOrdered(s) && RowsInOrder(s)
  }

  predicate StopAction(a: Action) {
    a.ParentCancel? || a.Cancel? || a.Take? || a.CloseReader? || a.DrainJoined? || a.QueueClose? || a.LoopJoined?
  }

  lemma {:induction false} StopReaderStep(s: State, a: Action)
    requires Enabled(s, a) && ReaderOwned(s) && Cancelled(s) && StopAction(a)
    ensures ReaderOwned(Apply(s, a)) && Cancelled(Apply(s, a))
  {
  }

  lemma {:induction false} DrainReaderStep(s: State, a: Action)
    requires Enabled(s, a) && ReaderOwned(s) && Cancelled(s) && !StopAction(a)
    ensures ReaderOwned(Apply(s, a)) && Cancelled(Apply(s, a))
  {
  }

  lemma {:induction false} RowEmittedInOrder(s: State)
    requires Enabled(s, RowEmitted) && RowsInOrder(s) && QueueOrdered(s)
    ensures RowsInOrder(Apply(s, RowEmitted))
  {
    AdmittedSnoc(s.rows.written, s.rows.found, s.drain.row, |s.otel.queue|);
  }

  lemma {:induction false} RowsStep(s: State, a: Action)
    requires Enabled(s, a) && RowsInOrder(s) && QueueOrdered(s)
    ensures RowsInOrder(Apply(s, a))
  {
    if a == RowEmitted {
      RowEmittedInOrder(s);
    }
  }

  lemma QueueStep(s: State, a: Action)
    requires Enabled(s, a) && Invariant(s)
    ensures QueueOrdered(Apply(s, a))
  {
    if s.exporting {
      match a
      case RowEmitted => EmitConserves(s.otel, s.drain.row);
      case LoopReceive => ReceiveConserves(s.otel);
      case LoopTick => FlushConserves(s.otel);
      case _ =>
    }
  }

  /** The state a schedule leads to; None when one of its steps was not possible. */
  function After(exporting: bool, run: seq<Action>): Option<State> {
    if run == [] then Some(Init(exporting))
    else
      var front := After(exporting, run[..|run| - 1]);
      if front.Some? && Enabled(front.value, run[|run| - 1]) then Some(Apply(front.value, run[|run| - 1]))
      else None
  }

  lemma AfterStep(exporting: bool, run: seq<Action>, a: Action)
    requires After(exporting, run).Some? && Enabled(After(exporting, run).value, a)
    ensures After(exporting, run + [a]) == Some(Apply(After(exporting, run).value, a))
  {
    assert (run + [a])[..|run|] == run;
  }

  lemma InitInvariant(exporting: bool)
    ensures Invariant(Init(exporting))
  {
    assert Flatten<Row>([]) == [];
  }

  lemma InvariantStep(s: State, a: Action)
    requires Enabled(s, a) && Invariant(s)
    ensures Invariant(Apply(s, a)) && Apply(s, a).exporting == s.exporting
  {
    if StopAction(a) {
      StopReaderStep(s, a);
    } else {
      DrainReaderStep(s, a);
    }
    QueueStep(s, a);
    RowsStep(s, a);
  }

  lemma {:induction false} RunInvariant(exporting: bool, run: seq<Action>)
    requires After(exporting, run).Some?
    ensures Invariant(After(exporting, run).value)
    ensures After(exporting, run).value.exporting == exporting
  {
    if run == [] {
      InitInvariant(exporting);
    } else {
      RunInvariant(exporting, run[..|run| - 1]);
      InvariantStep(After(exporting, run[..|run| - 1]).value, run[|run| - 1]);
    }
  }
}
