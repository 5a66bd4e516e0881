/** What every run of the partition worker guarantees: any number of restarts, with a crash or a
    failed call possible between any two steps. */
module BrokerTheorems {
  import opened Sequences
  import opened BrokerLog
  import opened BrokerProtocol

  ghost predicate Invariant(c: Config, log: Log, s: State) {
    && Bounded(log, s) && Shape(log, s) && Owned(log, s) && Attempts(log, s)
    && (!c.shadow ==> Durable(log, s) && PooledAfterStore(s) && Quiet(log, s))
  }

  lemma InvariantStep(c: Config, log: Log, s: State, a: Action)
    requires c.batchSize > 0
    requires Enabled(c, log, s, a) && Invariant(c, log, s)
    ensures Invariant(c, log, Apply(c, log, s, a))
  {
    ShapeStep(c, log, s, a);
    OwnedStep(c, log, s, a);
    AttemptsStep(c, log, s, a);
    if !c.shadow {
      DurableStep(c, log, s, a);
      PooledStep(c, log, s, a);
      QuietStep(c, log, s, a);
    }
  }

  lemma {:induction false} RunInvariant(c: Config, log: Log, run: seq<Action>)
    requires c.batchSize > 0
    requires After(c, log, run).Some?
    ensures Invariant(c, log, After(c, log, run).value)
  {
    if run == [] {
      EmptySlice(log, 0);
    } else {
      var front := run[..|run| - 1];
      RunInvariant(c, log, front);
      InvariantStep(c, log, After(c, log, front).value, run[|run| - 1]);
    }
  }

  /** Every event parsed below `offset` is among the stored ones. */
  ghost predicate StoredBelow(log: Log, stored: multiset<Event>, offset: nat) {
    forall e: Event ::
      e.offset < offset && e.offset < |log| && e.index < |log[e.offset]| && e.body == log[e.offset][e.index]
      ==> e in stored
  }

  lemma CoveredMeansStored(log: Log, stored: multiset<Event>, offset: nat)
    requires Covered(log, stored, offset)
    ensures StoredBelow(log, stored, offset)
  {
    forall e: Event |
      e.offset < offset && e.offset < |log| && e.index < |log[e.offset]| && e.body == log[e.offset][e.index]
      ensures e in stored
    {
      EventsInMembers(log, 0, offset, e);
      assert e in multiset(EventsIn(log, 0, offset));
    }
  }

  ghost predicate AtLeastOnce(log: Log, s: State) {
    && StoredBelow(log, s.disk.stored, s.disk.local)
    && StoredBelow(log, s.disk.stored, s.disk.remote)
    && forall l, r :: StoredBelow(log, s.disk.stored, ResumeOffset(s.disk, l, r))
  }

  /** Whatever has been committed, on either side, has been stored; so no restart, reading whichever
      of the two offsets it can, begins past an event that is missing from the store. */
  lemma CommittedIsStored(c: Config, log: Log, run: seq<Action>)
    requires c.batchSize > 0 && !c.shadow
    requires After(c, log, run).Some?
    ensures AtLeastOnce(log, After(c, log, run).value)
  {
    RunInvariant(c, log, run);
    var s := After(c, log, run).value;
    CoveredMeansStored(log, s.disk.stored, s.disk.local);
    CoveredMeansStored(log, s.disk.stored, s.disk.remote);
  }

  /** Between flushes, what one incarnation has stored is exactly what a record-by-record consumer
      would have stored from where it booted up to `start`: in log order, nothing twice, nothing
      else. The batch size and the times at which the flush timer fires do not matter. */
  lemma BatchingRefinesRecordByRecord(c: Config, log: Log, run: seq<Action>)
    requires c.batchSize > 0 && !c.shadow
    requires After(c, log, run).Some?
    requires After(c, log, run).value.pc in {Head, Consuming}
    ensures var s := After(c, log, run).value;
            var flushed := Flatten(s.hist.batches);
            && s.hist.origin <= s.cur.start <= |log|
            && flushed == EventsIn(log, s.hist.origin, s.cur.start)
            && s.disk.stored == s.hist.base + multiset(flushed)
            && forall i, j :: 0 <= i < j < |flushed| ==> Before(flushed[i], flushed[j])
  {
    RunInvariant(c, log, run);
    var s := After(c, log, run).value;
    PooledUpToStart(log, s);
    var flushed := Flatten(s.hist.batches);
    forall i, j | 0 <= i < j < |flushed| ensures Before(flushed[i], flushed[j]) {
      EventsInOrdered(log, s.hist.origin, s.cur.start, i, j);
    }
  }

  /** In either mode the pool has received exactly the events between boot and `start`. */
  lemma PooledUpToStart(log: Log, s: State)
    requires s.pc in {Head, Consuming}
    requires Shape(log, s) && Owned(log, s) && Attempts(log, s)
    ensures s.hist.origin <= s.cur.start <= |log| && s.hist.pooled == EventsIn(log, s.hist.origin, s.cur.start)
  {
    EventsInSplit(log, s.hist.origin, s.cur.start, s.cur.next);
    var slice := EventsIn(log, s.hist.origin, s.cur.start);
    EmptySlice(log, s.cur.start);
    assert s.hist.pooled + s.cur.batch == slice + EventsIn(log, s.cur.start, s.cur.next);
    assert |s.hist.pooled| == |slice| && s.hist.pooled == (s.hist.pooled + s.cur.batch)[..|slice|];
  }

  /** Shutdown never reaches the drain's guessed offset: the batch is empty whenever the worker is
      at the top of its loop, so cancelling there ends the worker and changes nothing durable. */
  lemma DrainHasNothingToFlush(c: Config, log: Log, run: seq<Action>)
    requires c.batchSize > 0
    requires After(c, log, run + [Cancelled]).Some?
    ensures After(c, log, run).Some?
    ensures var s := After(c, log, run).value;
            var t := After(c, log, run + [Cancelled]).value;
            && s.cur.batch == [] && t.pc == Down
            && t.disk.stored == s.disk.stored && t.disk.local == s.disk.local && t.disk.remote == s.disk.remote
  {
    assert (run + [Cancelled])[..|run|] == run;
    RunInvariant(c, log, run);
  }

  /** Offsets handed to commitOffset strictly increase within an incarnation, in either mode; and a
      worker that stores has read nothing but event-free records since the last of them. */
  lemma CommitsIncrease(c: Config, log: Log, run: seq<Action>)
    requires c.batchSize > 0
    requires After(c, log, run).Some?
    ensures var s := After(c, log, run).value;
            && Increasing(s.hist.attempts)
            && (s.pc in {Head, Consuming} && !c.shadow ==>
                  && LastAttempt(s) <= s.cur.start <= |log|
                  && forall o :: LastAttempt(s) <= o < s.cur.start ==> log[o] == [])
  {
    RunInvariant(c, log, run);
    var s := After(c, log, run).value;
    if s.pc in {Head, Consuming} && !c.shadow {
      forall o | LastAttempt(s) <= o < s.cur.start ensures log[o] == [] {
        if log[o] != [] {
          EventsInMembers(log, LastAttempt(s), s.cur.start, Event(o, 0, log[o][0]));
          assert false;
        }
      }
    }
  }

  /** In a strictly ordered sequence every element occurs once. */
  lemma {:induction false} OrderedOnce(xs: seq<Event>, e: Event)
    requires forall i, j :: 0 <= i < j < |xs| ==> Before(xs[i], xs[j])
    ensures multiset(xs)[e] == if e in xs then 1 else 0
  {
    if xs != [] {
      var front, last := xs[..|xs| - 1], xs[|xs| - 1];
      assert xs == front + [last];
      OrderedOnce(front, e);
      forall i | 0 <= i < |front| ensures front[i] != last {
        assert Before(xs[i], xs[|xs| - 1]);
      }
    }
  }

  /** Each event handed over is in exactly one of pool, batch and abandoned batch, and in it once;
      and whatever a storing worker has returned to the pool is in the store. */
  lemma EventsHaveOneOwner(c: Config, log: Log, run: seq<Action>, e: Event)
    requires c.batchSize > 0
    requires After(c, log, run).Some?
    ensures var s := After(c, log, run).value;
            && (multiset(s.hist.pooled) + multiset(s.cur.batch) + multiset(s.hist.abandoned))[e]
               == (if e in s.hist.handed then 1 else 0)
            && (!c.shadow && e in s.hist.pooled ==> e in s.disk.stored)
  {
    RunInvariant(c, log, run);
    var s := After(c, log, run).value;
    forall i, j | 0 <= i < j < |s.hist.handed| ensures Before(s.hist.handed[i], s.hist.handed[j]) {
      EventsInOrdered(log, s.hist.origin, s.cur.next, i, j);
    }
    OrderedOnce(s.hist.handed, e);
    assert multiset(s.hist.handed) == multiset(s.hist.pooled) + multiset(s.cur.batch) + multiset(s.hist.abandoned);
    if !c.shadow && e in s.hist.pooled {
      assert e in multiset(s.hist.pooled);
      assert s.hist.pooled <= Flatten(s.hist.batches);
      assert e in Flatten(s.hist.batches);
      assert e in multiset(Flatten(s.hist.batches));
    }
  }

  // ------------------------------------------------------------------ shadow mode

  const SHADOW_LOG: Log := [["click"], []]

  /** Two records fetched; the timer fires on the first, whose event is counted and dropped. */
  lemma ShadowCountsAnEvent(c: Config) returns (run: seq<Action>)
    requires c.batchSize > 0 && c.shadow
    ensures After(c, SHADOW_LOG, run).Some?
    ensures var s := After(c, SHADOW_LOG, run).value;
            && s.pc == Consuming && s.disk.stored == multiset{}
            && s.cur.start == s.cur.next == 1 && s.cur.fetched == 2 && s.cur.batch == []
  {
    AfterStep(c, SHADOW_LOG, [], Boot(true, true));
    run := [] + [Boot(true, true)];
    AfterStep(c, SHADOW_LOG, run, FetchOk(2));
    run := run + [FetchOk(2)];
    assert |RecordEvents(SHADOW_LOG, 0)| == 1;
    AfterStep(c, SHADOW_LOG, run, Consume(true));
    run := run + [Consume(true)];
    AfterStep(c, SHADOW_LOG, run, StoreShadow);
    run := run + [StoreShadow];
  }

  /** The second record holds no event, so the round ends by committing past both. */
  lemma ShadowLosesAnEvent(c: Config) returns (run: seq<Action>)
    requires c.batchSize > 0 && c.shadow
    ensures After(c, SHADOW_LOG, run).Some?
    ensures !AtLeastOnce(SHADOW_LOG, After(c, SHADOW_LOG, run).value)
  {
    run := ShadowCountsAnEvent(c);
    assert RecordEvents(SHADOW_LOG, 1) == [];
    AfterStep(c, SHADOW_LOG, run, Consume(false));
    run := run + [Consume(false)];
    AfterStep(c, SHADOW_LOG, run, EndRound);
    run := run + [EndRound];
    AfterStep(c, SHADOW_LOG, run, CommitLocal(true));
    run := run + [CommitLocal(true)];
    AfterStep(c, SHADOW_LOG, run, CommitRemote(true));
    run := run + [CommitRemote(true)];
    var t := After(c, SHADOW_LOG, run).value;
    assert t.disk.remote == 2 && Event(0, 0, "click") !in t.disk.stored;
    assert !StoredBelow(SHADOW_LOG, t.disk.stored, t.disk.remote);
  }

  /** At-least-once delivery holds on every log and every run exactly when the worker stores what it
      consumes: BROKER_SHADOW_MODE commits can pass events that were never written. */
  lemma AtLeastOnceIffNotShadow(c: Config)
    requires c.batchSize > 0
    ensures (forall log: Log, run: seq<Action> ::
               After(c, log, run).Some? ==> AtLeastOnce(log, After(c, log, run).value)) <==> !c.shadow
  {
    if c.shadow {
      var run := ShadowLosesAnEvent(c);
    } else {
      forall log: Log, run: seq<Action> | After(c, log, run).Some?
        ensures AtLeastOnce(log, After(c, log, run).value)
      {
        CommittedIsStored(c, log, run);
      }
    }
  }

  // ------------------------------------------------------------------ recovery

  /** From any reachable state of a storing worker some continuation stores the whole log: no crash
      and no half-finished step leaves the group stuck. */
  lemma CatchUp(c: Config, log: Log, run: seq<Action>) returns (more: seq<Action>)
    requires c.batchSize > 0 && !c.shadow
    requires After(c, log, run).Some?
    ensures run <= more && After(c, log, more).Some?
    ensures StoredBelow(log, After(c, log, more).value.disk.stored, |log|)
  {
    var up := Restart(c, log, run);
    RunInvariant(c, log, up);
    more := ConsumeRest(c, log, up);
    RunInvariant(c, log, more);
    CoveredMeansStored(log, After(c, log, more).value.disk.stored, |log|);
  }

  lemma Restart(c: Config, log: Log, run: seq<Action>) returns (more: seq<Action>)
    requires After(c, log, run).Some?
    ensures run <= more && After(c, log, more).Some?
    ensures After(c, log, more).value.pc == Head
  {
    more := run;
    if After(c, log, run).value.pc != Down {
      AfterStep(c, log, more, Crash(multiset{}));
      more := more + [Crash(multiset{})];
    }
    AfterStep(c, log, more, Boot(true, true));
    more := more + [Boot(true, true)];
  }

  /** One clean pass from the top of the loop to the end of the log, a record per round. */
  lemma {:induction false} ConsumeRest(c: Config, log: Log, run: seq<Action>) returns (whole: seq<Action>)
    requires c.batchSize > 0 && !c.shadow
    requires After(c, log, run).Some? && After(c, log, run).value.pc == Head
    requires After(c, log, run).value.cur.start <= |log|
    ensures run <= whole
    ensures After(c, log, whole).Some?
    ensures After(c, log, whole).value.pc == Head && After(c, log, whole).value.cur.start == |log|
    decreases |log| - After(c, log, run).value.cur.start
  {
    var s := After(c, log, run).value;
    if s.cur.start == |log| {
      whole := run;
    } else {
      RunInvariant(c, log, run);
      var round := OneRecord(c, log, run);
      whole := ConsumeRest(c, log, round);
    }
  }

  /** A round over one record: consume it, store what it held, commit past it. */
  lemma OneRecord(c: Config, log: Log, run: seq<Action>) returns (more: seq<Action>)
    requires c.batchSize > 0 && !c.shadow
    requires After(c, log, run).Some? && After(c, log, run).value.pc == Head
    requires After(c, log, run).value.cur.batch == []
    requires After(c, log, run).value.cur.start < |log|
    ensures run <= more && After(c, log, more).Some?
    ensures After(c, log, more).value.pc == Head
    ensures After(c, log, more).value.cur.start == After(c, log, run).value.cur.start + 1
  {
    var at := After(c, log, run).value.cur.start;
    more := TakeOne(c, log, run);
    if After(c, log, more).value.pc.Storing? {
      more := StoreOne(c, log, more);
    }
    more := CommitOne(c, log, more);
    if After(c, log, more).value.pc == Consuming {
      AfterStep(c, log, more, EndRound);
      more := more + [EndRound];
    }
  }

  lemma TakeOne(c: Config, log: Log, run: seq<Action>) returns (more: seq<Action>)
    requires c.batchSize > 0 && !c.shadow
    requires After(c, log, run).Some? && After(c, log, run).value.pc == Head
    requires After(c, log, run).value.cur.batch == []
    requires After(c, log, run).value.cur.start < |log|
    ensures run <= more && After(c, log, more).Some?
    ensures var t := After(c, log, more).value;
            && (t.pc in {Storing(Resume), Storing(Finish)} || (t.pc == CommittingLocal(Finish) && t.cur.batch == []))
            && t.cur.nextCommit == After(c, log, run).value.cur.start + 1
  {
    var at := After(c, log, run).value.cur.start;
    AfterStep(c, log, run, FetchOk(at + 1));
    more := run + [FetchOk(at + 1)];
    AfterStep(c, log, more, Consume(false));
    more := more + [Consume(false)];
    if After(c, log, more).value.pc == Consuming {
      AfterStep(c, log, more, EndRound);
      more := more + [EndRound];
    }
  }

  lemma StoreOne(c: Config, log: Log, run: seq<Action>) returns (more: seq<Action>)
    requires !c.shadow
    requires After(c, log, run).Some? && After(c, log, run).value.pc.Storing?
    ensures run <= more && After(c, log, more).Some?
    ensures var s, t := After(c, log, run).value, After(c, log, more).value;
            t.pc == CommittingLocal(s.pc.ret) && t.cur == s.cur.(batch := [])
  {
    AfterStep(c, log, run, StoreOk);
    AfterStep(c, log, run + [StoreOk], PutBack);
    more := run + [StoreOk] + [PutBack];
  }

  lemma CommitOne(c: Config, log: Log, run: seq<Action>) returns (more: seq<Action>)
    requires After(c, log, run).Some? && After(c, log, run).value.pc.CommittingLocal?
    ensures run <= more && After(c, log, more).Some?
    ensures var s, t := After(c, log, run).value, After(c, log, more).value;
            t.pc == ReturnTo(s.pc.ret) && t.cur == s.cur.(start := s.cur.nextCommit)
  {
    AfterStep(c, log, run, CommitLocal(true));
    AfterStep(c, log, run + [CommitLocal(true)], CommitRemote(true));
    more := run + [CommitLocal(true)] + [CommitRemote(true)];
  }
}
