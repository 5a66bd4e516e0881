/** What every interleaving of the shutdown guarantees: safety from the invariant, and an end that no
    schedule can put off, from a measure. */
module ProbeTheorems {
  import opened Sequences
  import opened Options
  import opened OtelQueue
  import opened ProbeShutdown

  /** A reader is never closed twice, and is closed once by the time both goroutines are through. */
  lemma ReaderClosedOnce(exporting: bool, run: seq<Action>)
    requires After(exporting, run).Some?
    ensures var s := After(exporting, run).value;
            && s.closes <= 1
            && (s.drain == Finished && !s.stop.CloseTaken? ==> s.closes == if s.created then 1 else 0)
            && (s.stop == Stopped ==> s.drain == Finished)
  {
    RunInvariant(exporting, run);
  }

  /** While the drain is in its loop a closed reader implies a cancelled context, so a read error
      caused by closing ends the loop instead of spinning. On a live context the reader is closed
      exactly when events.ndjson failed to open and the drain is through, and then there is no loop. */
  lemma ClosedMeansCancelled(exporting: bool, run: seq<Action>)
    requires After(exporting, run).Some?
    ensures var s := After(exporting, run).value;
            && (s.closes > 0 && InLoop(s.drain) ==> s.cancelled)
            && (s.closes > 0 && !s.cancelled <==> s.openFailed && s.drain == Finished && !s.cancelled)
  {
    RunInvariant(exporting, run);
  }

  lemma Extend(exporting: bool, run: seq<Action>, s: State, a: Action) returns (more: seq<Action>, s': State)
    requires After(exporting, run) == Some(s) && Enabled(s, a)
    ensures more == run + [a] && s' == Apply(s, a)
    ensures After(exporting, more) == Some(s')
  {
    AfterStep(exporting, run, a);
    more, s' := run + [a], Apply(s, a);
  }

  /** The exception is real: with no file to write to, the reader is closed on a live context. */
  lemma ClosedWithoutCancel(exporting: bool) returns (run: seq<Action>)
    ensures After(exporting, run).Some?
    ensures var s := After(exporting, run).value; s.closes == 1 && !s.cancelled
  {
    var s := Init(exporting);
    run, s := Extend(exporting, [], s, ReaderOpened);
    run, s := Extend(exporting, run, s, Registered);
    run, s := Extend(exporting, run, s, FileOpened(false));
    run, s := Extend(exporting, run, s, Released);
  }

  /** Cancelling the context is not enough: a drain waiting in Read stays there. */
  lemma CancelAloneBlocks(exporting: bool) returns (run: seq<Action>)
    ensures After(exporting, run).Some?
    ensures var s := After(exporting, run).value;
            s.cancelled && s.drain == Reading && forall a :: DrainStep(a) ==> !OwnStep(s, a)
  {
    var s := Init(exporting);
    run, s := Extend(exporting, [], s, ReaderOpened);
    run, s := Extend(exporting, run, s, Registered);
    run, s := Extend(exporting, run, s, FileOpened(true));
    run, s := Extend(exporting, run, s, ContextChecked);
    run, s := Extend(exporting, run, s, ParentCancel);
    ReadingWaits(s);
  }

  lemma ReadingWaits(s: State)
    requires s.drain == Reading && s.closes == 0
    ensures forall a :: DrainStep(a) ==> !OwnStep(s, a)
  {
  }

  // ------------------------------------------------------------------ progress

  function StopRank(pc: StopPC): nat {
    match pc
    case NotBegun => 6
    case TakeReader => 5
    case CloseTaken(_) => 4
    case JoinDrain => 3
    case CloseQueue => 2
    case JoinLoop => 1
    case Stopped => 0
  }

  /** Distance to the end once the context is cancelled. */
  function DrainRank(pc: DrainPC): nat {
    match pc
    case Launched => 5
    case Register => 4
    case OpenFile => 3
    case CheckContext => 2
    case Reading => 4
    case Emitting(_) => 3
    case ReadFailed => 2
    case Release => 1
    case Finished => 0
  }

  function Measure(s: State): nat {
    StopRank(s.stop) + 3 * DrainRank(s.drain) + Backlog(s.otel)
  }

  /** Once the context is cancelled, no step of anyone, and nothing the surroundings do, can change
      the state without bringing the end closer. */
  lemma StepShrinks(s: State, a: Action)
    requires s.cancelled && Enabled(s, a)
    ensures Apply(s, a) == s || Measure(Apply(s, a)) < Measure(s)
  {
    if a == LoopReceive {
      ReceiveShrinks(s.otel);
    }
  }

  /** What the drain does next when it has the choice. */
  function DrainNext(s: State): Action
    requires s.drain != Finished
  {
    match s.drain
    case Launched => ReaderOpened
    case Register => Registered
    case OpenFile => FileOpened(true)
    case CheckContext => ContextChecked
    case Reading => ReadError
    case Emitting(_) => RowEmitted
    case ReadFailed => ErrorChecked
    case Release => Released
  }

  /** While the drain is not through, `stop` has not come past waiting for it, and the queue is open. */
  lemma BeforeDrainEnds(exporting: bool, run: seq<Action>)
    requires After(exporting, run).Some? && After(exporting, run).value.drain != Finished
    ensures var s := After(exporting, run).value;
            && s.stop !in {CloseQueue, JoinLoop, Stopped}
            && (s.stop != NotBegun ==> s.cancelled)
            && (exporting ==> !s.otel.closed)
  {
    RunInvariant(exporting, run);
  }

  /** After `stop` has run its close step the drain cannot be blocked: it always has a step of its
      own, until it is done. */
  lemma DrainUnblocked(exporting: bool, run: seq<Action>)
    requires After(exporting, run).Some?
    requires After(exporting, run).value.stop in {JoinDrain, CloseQueue, JoinLoop, Stopped}
    requires After(exporting, run).value.drain != Finished
    ensures var s := After(exporting, run).value;
            OwnStep(s, DrainNext(s)) && DrainStep(DrainNext(s)) && Apply(s, DrainNext(s)) != s
  {
    RunInvariant(exporting, run);
  }

  /** Someone can move, unless shutdown is over. */
  function NextStep(s: State): Action
    requires s.stop != Stopped
  {
    match s.stop
    case NotBegun => Cancel
    case TakeReader => Take
    case CloseTaken(_) => CloseReader
    case JoinDrain => if s.drain == Finished then DrainJoined else DrainNext(s)
    case CloseQueue => QueueClose
    case JoinLoop => if s.otel.exited then LoopJoined else LoopReceive
  }

  lemma NoDeadlock(exporting: bool, run: seq<Action>)
    requires After(exporting, run).Some?
    requires After(exporting, run).value.stop !in {NotBegun, Stopped}
    ensures var s := After(exporting, run).value; OwnStep(s, NextStep(s)) && Apply(s, NextStep(s)) != s
  {
    RunInvariant(exporting, run);
  }

  lemma LastStepShrinks(exporting: bool, run: seq<Action>, a: Action)
    requires After(exporting, run + [a]).Some? && After(exporting, run + [a]) != After(exporting, run)
    ensures After(exporting, run).Some?
    ensures var s, s' := After(exporting, run).value, After(exporting, run + [a]).value;
            s.cancelled ==> s'.cancelled && Measure(s') < Measure(s)
  {
    assert (run + [a])[..|run|] == run;
    if After(exporting, run).value.cancelled {
      StepShrinks(After(exporting, run).value, a);
    }
  }

  /** Every schedule of shutdown ends, and ends well. From a state in which `stop` has begun, any
      sequence of steps that each change something is at most `Measure` long; and where none of the
      goroutines can change anything any more, `stop` has returned. */
  lemma {:induction false} ShutdownBounded(exporting: bool, run: seq<Action>, more: seq<Action>)
    requires After(exporting, run).Some? && After(exporting, run).value.cancelled
    requires After(exporting, run + more).Some?
    requires forall i :: 0 <= i < |more| ==> After(exporting, run + more[..i]) != After(exporting, run + more[..i + 1])
    ensures After(exporting, run + more).value.cancelled
    ensures |more| + Measure(After(exporting, run + more).value) <= Measure(After(exporting, run).value)
    decreases |more|
  {
    if more == [] {
      assert run + more == run;
    } else {
      var front, last := more[..|more| - 1], more[|more| - 1];
      assert run + more == run + front + [last] && more[..|more|] == more;
      forall i | 0 <= i < |front|
        ensures After(exporting, run + front[..i]) != After(exporting, run + front[..i + 1])
      {
        assert front[..i] == more[..i] && front[..i + 1] == more[..i + 1];
      }
      LastStepShrinks(exporting, run + front, last);
      ShutdownBounded(exporting, run, front);
    }
  }

  lemma QuiescentMeansStopped(exporting: bool, run: seq<Action>)
    requires After(exporting, run).Some?
    requires After(exporting, run).value.stop != NotBegun
    requires forall a :: OwnStep(After(exporting, run).value, a) ==>
                         Apply(After(exporting, run).value, a) == After(exporting, run).value
    ensures After(exporting, run).value.stop == Stopped
  {
    if After(exporting, run).value.stop != Stopped {
      NoDeadlock(exporting, run);
    }
  }

  /** No row is ever sent on the closed queue, and when `stop` returns each accepted row is in exactly
      one flush, in order, in batches of one to thirty-two. */
  lemma RowsConserved(exporting: bool, run: seq<Action>)
    requires After(exporting, run).Some?
    ensures var s := After(exporting, run).value;
            && !s.panicked
            && s.otel.accepted == Flatten(s.otel.flushes) + s.otel.batch + s.otel.queue
            && |s.otel.queue| <= QUEUE_CAPACITY && |s.otel.batch| < BATCH_SIZE
            && (forall i :: 0 <= i < |s.otel.flushes| ==> 1 <= |s.otel.flushes[i]| <= BATCH_SIZE)
            && (s.stop == Stopped ==> s.otel.accepted == Flatten(s.otel.flushes))
  {
    RunInvariant(exporting, run);
    assert Flatten<Row>([]) == [];
    var s := After(exporting, run).value;
    if s.stop == Stopped {
      assert s.otel.accepted == Flatten(s.otel.flushes) + [] + [];
    }
  }

  lemma SubsequenceOfNothing(rows: seq<Row>)
    ensures Subsequence([], rows)
  {
  }

  lemma {:induction false} OfferStep(s: State)
    requires Enabled(s, RowEmitted) && s.exporting && !s.otel.closed && |s.otel.queue| <= QUEUE_CAPACITY
    ensures var t := Apply(s, RowEmitted);
            && t.rows.written == s.rows.written + [s.drain.row]
            && t.rows.found == s.rows.found + [|s.otel.queue|]
            && (|s.otel.queue| < 256 ==>
                  && t.otel.accepted == s.otel.accepted + [s.drain.row]
                  && t.otel.queue == s.otel.queue + [s.drain.row])
            && (|s.otel.queue| == 256 ==> t.otel == s.otel)
  {
  }

  /** An offered row is dropped exactly if the queue holds 256 rows at that moment. */
  lemma DroppedIffFull(exporting: bool, run: seq<Action>)
    requires After(exporting, run + [RowEmitted]).Some? && exporting
    ensures After(exporting, run).Some? && After(exporting, run).value.drain.Emitting?
    ensures var s, t := After(exporting, run).value, After(exporting, run + [RowEmitted]).value;
            && t.rows.written == s.rows.written + [s.drain.row]
            && t.rows.found == s.rows.found + [|s.otel.queue|]
            && |s.otel.queue| <= 256
            && (|s.otel.queue| < 256 ==>
                  && t.otel.accepted == s.otel.accepted + [s.drain.row]
                  && t.otel.queue == s.otel.queue + [s.drain.row])
            && (|s.otel.queue| == 256 ==> t.otel == s.otel)
  {
    assert (run + [RowEmitted])[..|run|] == run;
    BeforeDrainEnds(exporting, run);
    RowsConserved(exporting, run);
    ExportingIsKept(exporting, run);
    OfferStep(After(exporting, run).value);
  }

  lemma ExportingIsKept(exporting: bool, run: seq<Action>)
    requires After(exporting, run).Some?
    ensures After(exporting, run).value.exporting == exporting
  {
    RunInvariant(exporting, run);
  }

  /** Every record read becomes one row of the file, in order; the exporter accepts those of them that
      found room in the queue, and no others, whatever its loop takes out meanwhile; and once `stop`
      has returned the flushes hold exactly these. If the queue was never full, that is every row. */
  lemma RowsReadAreKept(exporting: bool, run: seq<Action>)
    requires After(exporting, run).Some?
    ensures var s := After(exporting, run).value;
            && s.rows.read == s.rows.written + (if s.drain.Emitting? then [s.drain.row] else [])
            && |s.rows.found| == |s.rows.written| && Subsequence(s.otel.accepted, s.rows.written)
            && (exporting ==> s.otel.accepted == Admitted(s.rows.written, s.rows.found))
            && (exporting ==> (s.otel.accepted == s.rows.written
                               <==> forall i :: 0 <= i < |s.rows.found| ==> s.rows.found[i] < 256))
            && (s.stop == Stopped ==> s.rows.written == s.rows.read && s.otel.accepted == Flatten(s.otel.flushes))
  {
    RunInvariant(exporting, run);
    RowsConserved(exporting, run);
    var s := After(exporting, run).value;
    AdmittedInOrder(s.rows.written, s.rows.found);
    AllAdmittedIff(s.rows.written, s.rows.found);
    SubsequenceOfNothing(s.rows.written);
  }
}
