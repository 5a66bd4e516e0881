/** Where an incarnation of the partition worker resumes, and which runs store nothing twice. */
module BrokerResume {
  import opened Options
  import opened BrokerLog
  import opened BrokerProtocol
  import opened BrokerTheorems

  // ------------------------------------------------------------------ resuming

  lemma AfterFront(c: Config, log: Log, run: seq<Action>, a: Action)
    requires After(c, log, run + [a]).Some?
    ensures After(c, log, run).Some? && Enabled(c, log, After(c, log, run).value, a)
    ensures After(c, log, run + [a]) == Some(Apply(c, log, After(c, log, run).value, a))
  {
    assert (run + [a])[..|run|] == run;
  }

  lemma {:induction false} SameIncarnation(c: Config, log: Log, run: seq<Action>, more: seq<Action>)
    requires After(c, log, run + more).Some?
    requires forall i :: 0 <= i < |more| ==> !more[i].Boot?
    ensures After(c, log, run).Some?
    ensures After(c, log, run + more).value.hist.origin == After(c, log, run).value.hist.origin
    decreases |more|
  {
    if more == [] {
      assert run + more == run;
    } else {
      var front, last := more[..|more| - 1], more[|more| - 1];
      assert run + more == run + front + [last];
      AfterFront(c, log, run + front, last);
      SameIncarnation(c, log, run, front);
    }
  }

  /** An incarnation hands over the records from the tracker's offset on, if that can be read and is not
      0; else from the broker's, if that can be read; else from the beginning. Nothing before, and no
      gap. */
  lemma ResumesAtCommit(c: Config, log: Log, run: seq<Action>, l: bool, r: bool, more: seq<Action>)
    requires c.batchSize > 0
    requires After(c, log, run + [Boot(l, r)] + more).Some?
    requires forall i :: 0 <= i < |more| ==> !more[i].Boot?
    ensures After(c, log, run).Some?
    ensures var disk, t := After(c, log, run).value.disk, After(c, log, run + [Boot(l, r)] + more).value;
            var from := t.hist.origin;
            && from <= t.cur.next <= |log| && t.hist.handed == EventsIn(log, from, t.cur.next)
            && (l && disk.local > 0 ==> from == disk.local)
            && (!(l && disk.local > 0) && r ==> from == disk.remote)
            && (!(l && disk.local > 0) && !r ==> from == 0)
            && (forall e :: e in t.hist.handed ==> e.offset >= from)
  {
    SameIncarnation(c, log, run + [Boot(l, r)], more);
    AfterFront(c, log, run, Boot(l, r));
    RunInvariant(c, log, run + [Boot(l, r)] + more);
    var t := After(c, log, run + [Boot(l, r)] + more).value;
    forall e | e in t.hist.handed ensures e.offset >= t.hist.origin {
      EventsInMembers(log, t.hist.origin, t.cur.next, e);
    }
  }

  // ------------------------------------------------------------------ storing once

  /** Nothing goes wrong that can make the worker store an event again. With a tracker, its offset is
      read at every start and its commits take effect; without one, that is said of the broker's. A
      failed store has written nothing, and no process dies between storing a batch and committing it. */
  predicate Smooth(tracked: bool, s: State, a: Action) {
    match a
    case Boot(l, r) => if tracked then l else !l && r
    case StoreFail(part) => part == multiset{}
    case CommitLocal(applied) => applied == tracked
    case CommitRemote(applied) => tracked || applied
    case Crash(part) => part == multiset{} && !Uncommitted(tracked, s.pc)
    case _ => true
  }

  /** Between storing a batch and the commit that is read at the next start. */
  predicate Uncommitted(tracked: bool, pc: PC) {
    pc.Pooling? || pc.CommittingLocal? || (pc.CommittingRemote? && !tracked)
  }

  predicate SmoothRun(c: Config, log: Log, tracked: bool, run: seq<Action>)
    requires After(c, log, run).Some?
  {
    run != [] ==>
      && SmoothRun(c, log, tracked, run[..|run| - 1])
      && Smooth(tracked, After(c, log, run[..|run| - 1]).value, run[|run| - 1])
  }

  /** The commit that is read at the next start. */
  function Mark(tracked: bool, disk: Disk): nat {
    if tracked then disk.local else disk.remote
  }

  ghost predicate Exactly(log: Log, stored: multiset<Event>, offset: nat) {
    offset <= |log| && stored == multiset(EventsIn(log, 0, offset))
  }

  /** The store holds the events below the mark; while a batch waits for its commit, those of the batch
      as well. */
  ghost predicate StoredOnce(log: Log, tracked: bool, s: State) {
    var mark := Mark(tracked, s.disk);
    && (if tracked then s.disk.remote <= s.disk.local else s.disk.local == 0)
    && Exactly(log, s.disk.stored, if Uncommitted(tracked, s.pc) then s.cur.nextCommit else mark)
    && (s.pc != Down && !s.pc.CommittingRemote? ==>
          mark <= s.cur.start <= |log| && EventsIn(log, mark, s.cur.start) == [])
    && (s.pc.CommittingLocal? || s.pc.CommittingRemote? ==> mark <= s.cur.nextCommit)
    && (s.pc.CommittingRemote? && tracked ==> mark == s.cur.nextCommit)
  }

  lemma ExactlyExtends(log: Log, stored: multiset<Event>, a: nat, b: nat, d: nat)
    requires Exactly(log, stored, a) && a <= b <= d <= |log| && EventsIn(log, a, b) == []
    ensures Exactly(log, stored + multiset(EventsIn(log, b, d)), d)
  {
    EventsInSplit(log, 0, a, b);
    EventsInSplit(log, 0, b, d);
  }

  lemma ExactlySkips(log: Log, stored: multiset<Event>, a: nat, d: nat)
    requires Exactly(log, stored, a) && a <= d <= |log| && EventsIn(log, a, d) == []
    ensures Exactly(log, stored, d)
  {
    EventsInSplit(log, 0, a, d);
  }

  lemma OnceStore(c: Config, log: Log, tracked: bool, s: State)
    requires c.batchSize > 0 && !c.shadow
    requires Enabled(c, log, s, StoreOk) && Shape(log, s) && StoredOnce(log, tracked, s)
    ensures StoredOnce(log, tracked, Apply(c, log, s, StoreOk))
  {
    ExactlyExtends(log, s.disk.stored, Mark(tracked, s.disk), s.cur.start, s.cur.nextCommit);
  }

  lemma OnceConsume(c: Config, log: Log, tracked: bool, s: State, a: Action)
    requires c.batchSize > 0 && a.Consume?
    requires Enabled(c, log, s, a) && Shape(log, s) && StoredOnce(log, tracked, s)
    ensures StoredOnce(log, tracked, Apply(c, log, s, a))
  {
    ConsumeMoves(c, log, s, a);
    EventsInSplit(log, Mark(tracked, s.disk), s.cur.start, Apply(c, log, s, a).cur.start);
  }

  lemma OnceEndRound(c: Config, log: Log, tracked: bool, s: State)
    requires c.batchSize > 0 && !c.shadow
    requires Enabled(c, log, s, EndRound) && Shape(log, s) && StoredOnce(log, tracked, s)
    ensures StoredOnce(log, tracked, Apply(c, log, s, EndRound))
  {
    if s.cur.batch == [] && s.cur.nextCommit > s.cur.start {
      var mark := Mark(tracked, s.disk);
      EventsInSplit(log, mark, s.cur.start, s.cur.nextCommit);
      ExactlySkips(log, s.disk.stored, mark, s.cur.nextCommit);
    }
  }

  lemma OnceCommit(c: Config, log: Log, tracked: bool, s: State, a: Action)
    requires c.batchSize > 0 && (a.CommitLocal? || a.CommitRemote?) && Smooth(tracked, s, a)
    requires Enabled(c, log, s, a) && Shape(log, s) && StoredOnce(log, tracked, s)
    ensures StoredOnce(log, tracked, Apply(c, log, s, a))
  {
    EmptySlice(log, s.cur.nextCommit);
  }

  lemma {:induction false} OnceStep(c: Config, log: Log, tracked: bool, s: State, a: Action)
    requires c.batchSize > 0 && !c.shadow && Smooth(tracked, s, a)
    requires Enabled(c, log, s, a) && Shape(log, s) && Bounded(log, s) && StoredOnce(log, tracked, s)
    ensures StoredOnce(log, tracked, Apply(c, log, s, a))
  {
    match a
    case StoreOk => OnceStore(c, log, tracked, s);
    case Consume(_) => OnceConsume(c, log, tracked, s, a);
    case EndRound => OnceEndRound(c, log, tracked, s);
    case CommitLocal(_) => OnceCommit(c, log, tracked, s, a);
    case CommitRemote(_) => OnceCommit(c, log, tracked, s, a);
    case Boot(_, _) => EmptySlice(log, Mark(tracked, s.disk));
    case StoreFail(part) => assert s.disk.stored + part == s.disk.stored;
    case Crash(part) => assert s.disk.stored + part == s.disk.stored;
    case Cancelled =>
    case FetchFailed =>
    case FetchOk(_) =>
    case StoreShadow =>
    case PutBack =>
  }

  lemma {:induction false} SmoothRunStoresOnce(c: Config, log: Log, tracked: bool, run: seq<Action>)
    requires c.batchSize > 0 && !c.shadow
    requires After(c, log, run).Some? && SmoothRun(c, log, tracked, run)
    ensures StoredOnce(log, tracked, After(c, log, run).value)
  {
    if run == [] {
      EmptySlice(log, 0);
    } else {
      var front := run[..|run| - 1];
      SmoothRunStoresOnce(c, log, tracked, front);
      RunInvariant(c, log, front);
      OnceStep(c, log, tracked, After(c, log, front).value, run[|run| - 1]);
    }
  }

  /** Over any restarts of a smooth run, every event below the mark is stored once and nothing else is;
      between rounds the mark is behind `start` by records without events at most. */
  lemma ExactlyOnce(c: Config, log: Log, tracked: bool, run: seq<Action>)
    requires c.batchSize > 0 && !c.shadow
    requires After(c, log, run).Some? && SmoothRun(c, log, tracked, run)
    requires After(c, log, run).value.pc in {Down, Head, Consuming}
    ensures var s := After(c, log, run).value;
            var mark := if tracked then s.disk.local else s.disk.remote;
            && mark <= |log| && s.disk.stored == multiset(EventsIn(log, 0, mark))
            && (forall e :: s.disk.stored[e] <= 1)
            && (s.pc != Down ==>
                  mark <= s.cur.start <= |log| && forall o :: mark <= o < s.cur.start ==> log[o] == [])
  {
    SmoothRunStoresOnce(c, log, tracked, run);
    RunInvariant(c, log, run);
    var s := After(c, log, run).value;
    var mark := Mark(tracked, s.disk);
    var slice := EventsIn(log, 0, mark);
    forall i, j | 0 <= i < j < |slice| ensures Before(slice[i], slice[j]) {
      EventsInOrdered(log, 0, mark, i, j);
    }
    forall e ensures s.disk.stored[e] <= 1 {
      OrderedOnce(slice, e);
    }
    if s.pc != Down {
      NothingBetween(log, mark, s.cur.start);
    }
  }

  lemma NothingBetween(log: Log, lo: nat, hi: nat)
    requires lo <= hi <= |log| && EventsIn(log, lo, hi) == []
    ensures forall o :: lo <= o < hi ==> log[o] == []
  {
    forall o | lo <= o < hi ensures log[o] == [] {
      if log[o] != [] {
        EventsInMembers(log, lo, hi, Event(o, 0, log[o][0]));
        assert false;
      }
    }
  }

  // ------------------------------------------------------------------ storing twice

  const ONE_CLICK: Log := [["click"]]

  lemma Then(c: Config, log: Log, run: seq<Action>, s: State, a: Action) returns (more: seq<Action>, s': State)
    requires After(c, log, run) == Some(s) && Enabled(c, log, s, a)
    ensures more == run + [a] && s' == Apply(c, log, s, a) && After(c, log, more) == Some(s')
  {
    AfterStep(c, log, run, a);
    more, s' := run + [a], Apply(c, log, s, a);
  }

  /** A start that fetches and stores the one record; it stands before the commit. */
  lemma StoresTheClick(c: Config, run: seq<Action>, s: State) returns (more: seq<Action>, s': State)
    requires c.batchSize > 0 && !c.shadow
    requires After(c, ONE_CLICK, run) == Some(s) && s.pc == Down && s.disk.local == s.disk.remote == 0
    ensures After(c, ONE_CLICK, more) == Some(s') && s'.pc.Pooling?
    ensures s'.disk == s.disk.(stored := s.disk.stored + multiset{Event(0, 0, "click")})
  {
    more, s' := Then(c, ONE_CLICK, run, s, Boot(true, true));
    more, s' := Then(c, ONE_CLICK, more, s', FetchOk(1));
    assert RecordEvents(ONE_CLICK, 0) == [Event(0, 0, "click")];
    more, s' := Then(c, ONE_CLICK, more, s', Consume(true));
    assert s'.cur.batch == [Event(0, 0, "click")];
    more, s' := Then(c, ONE_CLICK, more, s', StoreOk);
  }

  /** Not so if the process dies between the two: at least once is not exactly once. */
  lemma CrashStoresTwice(c: Config) returns (run: seq<Action>)
    requires c.batchSize > 0 && !c.shadow
    ensures After(c, ONE_CLICK, run).Some?
    ensures After(c, ONE_CLICK, run).value.disk.stored[Event(0, 0, "click")] == 2
  {
    var s;
    run, s := StoresTheClick(c, [], INITIAL);
    run, s := Then(c, ONE_CLICK, run, s, Crash(multiset{}));
    run, s := StoresTheClick(c, run, s);
  }

  // ------------------------------------------------------------------ batches

  /** A batch never waits at its full size: in the record loop it is smaller, and one that is being
      stored was smaller before its last record. */
  ghost predicate BatchBounded(c: Config, log: Log, s: State) {
    match s.pc
    case Consuming => |s.cur.batch| < c.batchSize
    case Storing(_) => s.cur.next > 0 && s.cur.next <= |log| && |s.cur.batch| < c.batchSize + |log[s.cur.next - 1]|
    case Pooling(_) => s.cur.next > 0 && s.cur.next <= |log| && |s.cur.batch| < c.batchSize + |log[s.cur.next - 1]|
    case _ => s.pc != Down ==> s.cur.batch == []
  }

  lemma {:induction false} BatchBoundedStep(c: Config, log: Log, s: State, a: Action)
    requires c.batchSize > 0
    requires Enabled(c, log, s, a) && Shape(log, s) && BatchBounded(c, log, s)
    ensures BatchBounded(c, log, Apply(c, log, s, a))
  {
  }

  /** In every state of every run. */
  lemma {:induction false} BatchesStayBounded(c: Config, log: Log, run: seq<Action>)
    requires c.batchSize > 0 && After(c, log, run).Some?
    ensures BatchBounded(c, log, After(c, log, run).value)
  {
    if run != [] {
      var front := run[..|run| - 1];
      BatchesStayBounded(c, log, front);
      RunInvariant(c, log, front);
      BatchBoundedStep(c, log, After(c, log, front).value, run[|run| - 1]);
    }
  }
}
