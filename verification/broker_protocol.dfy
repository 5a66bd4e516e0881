/** The partition worker as a labelled transition system. Every step is one point at which the
    process can be killed, and every choice the surroundings make (which reads fail, how many
    records a fetch returns, when the flush timer is due, what a failed store leaves behind,
    whether a commit takes effect) is an argument of the step. */
module BrokerProtocol {
  import opened Sequences
  import opened Options
  import opened BrokerLog

  /** batchSize is positive after the constructor's defaulting. */
  datatype Config = Config(batchSize: nat, shadow: bool)

  /** Where control returns after a flush: into the record loop, to the end of the fetch round,
      or out of the worker (the shutdown drain). */
  datatype Return = Resume | Finish | Exit

  datatype PC =
    | Down
    | Head
    | Consuming
    | Storing(ret: Return)
    | Pooling(ret: Return)
    | CommittingLocal(ret: Return)
    | CommittingRemote(ret: Return)

  /** What survives a crash: the rows in the event store, the offset tracker's file (0 when absent)
      and the group offset the broker keeps (0 when absent). */
  datatype Disk = Disk(stored: multiset<Event>, local: nat, remote: nat)

  /** The worker's variables: `next` is the offset the iterator yields next, `fetched` the end of
      the fetched range. */
  datatype Cursor = Cursor(start: nat, batch: seq<Event>, next: nat, fetched: nat, nextCommit: nat)

  /** A record of one incarnation: where and on what store it booted, the events the parser handed
      over, those returned to the pool, the batch whose store failed, the batches stored, and the
      offsets passed to commitOffset. */
  datatype History = History(
    origin: nat,
    base: multiset<Event>,
    handed: seq<Event>,
    pooled: seq<Event>,
    abandoned: seq<Event>,
    batches: seq<seq<Event>>,
    attempts: seq<nat>)

  datatype State = State(pc: PC, disk: Disk, cur: Cursor, hist: History)

  function BootCursor(at: nat): Cursor { Cursor(at, [], at, at, 0) }

  function BootHistory(at: nat, store: multiset<Event>): History { History(at, store, [], [], [], [], []) }

  const INITIAL := State(Down, Disk(multiset{}, 0, 0), BootCursor(0), BootHistory(0, multiset{}))

  datatype Action =
    | Boot(localReadable: bool, remoteReadable: bool)
    | Cancelled
    | FetchFailed
    | FetchOk(upTo: nat)
    | Consume(timerDue: bool)
    | EndRound
    | StoreShadow
    | StoreOk
    | StoreFail(part: multiset<Event>)
    | PutBack
    | CommitLocal(applied: bool)
    | CommitRemote(applied: bool)
    | Crash(part: multiset<Event>)

  predicate Enabled(c: Config, log: Log, s: State, a: Action) {
    match a
    case Boot(_, _) => s.pc == Down
    case Cancelled => s.pc == Head
    case FetchFailed => s.pc == Head
    case FetchOk(upTo) => s.pc == Head && s.cur.start <= upTo <= |log|
    case Consume(_) => s.pc == Consuming && s.cur.next < s.cur.fetched && s.cur.next < |log|
    case EndRound => s.pc == Consuming
    case StoreShadow => s.pc.Storing? && c.shadow
    case StoreOk => s.pc.Storing? && !c.shadow
    case StoreFail(part) => s.pc.Storing? && !c.shadow && part <= multiset(s.cur.batch)
    case PutBack => s.pc.Pooling?
    case CommitLocal(_) => s.pc.CommittingLocal?
    case CommitRemote(_) => s.pc.CommittingRemote?
    case Crash(part) =>
      s.pc != Down && part <= (if s.pc.Storing? && !c.shadow then multiset(s.cur.batch) else multiset{})
  }

  function ReturnTo(ret: Return): PC {
    match ret
    case Resume => Consuming
    case Finish => Head
    case Exit => Down
  }

  /** Local tracker first, broker offset when the tracker has nothing, zero when neither answers. */
  function ResumeOffset(d: Disk, localReadable: bool, remoteReadable: bool): nat {
    if localReadable && d.local > 0 then d.local
    else if remoteReadable then d.remote
    else 0
  }

  function Apply(c: Config, log: Log, s: State, a: Action): State
    requires Enabled(c, log, s, a)
  {
    match a
    case Boot(l, r) =>
      var at := ResumeOffset(s.disk, l, r);
      State(Head, s.disk, BootCursor(at), BootHistory(at, s.disk.stored))
    case Cancelled =>
      // drain: nothing to do on an empty batch, else a flush at a guessed offset
      if s.cur.batch == [] then s.(pc := Down)
      else s.(pc := Storing(Exit), cur := s.cur.(nextCommit := s.cur.start + |s.cur.batch|))
    case FetchFailed => s
    case FetchOk(upTo) =>
      s.(pc := Consuming, cur := Cursor(s.cur.start, s.cur.batch, s.cur.start, upTo, 0))
    case Consume(timerDue) => ApplyConsume(c, log, s, timerDue)
    case EndRound =>
      if s.cur.batch != [] then s.(pc := Storing(Finish))
      else if s.cur.nextCommit > s.cur.start then s.(pc := CommittingLocal(Finish))
      else s.(pc := Head)
    case StoreShadow =>
      s.(pc := ReturnTo(s.pc.ret), cur := s.cur.(batch := [], start := s.cur.nextCommit),
         hist := s.hist.(pooled := s.hist.pooled + s.cur.batch))
    case StoreOk =>
      s.(pc := Pooling(s.pc.ret), disk := s.disk.(stored := s.disk.stored + multiset(s.cur.batch)),
         hist := s.hist.(batches := s.hist.batches + [s.cur.batch]))
    case StoreFail(part) =>
      s.(pc := Down, disk := s.disk.(stored := s.disk.stored + part), cur := s.cur.(batch := []),
         hist := s.hist.(abandoned := s.cur.batch))
    case PutBack =>
      s.(pc := CommittingLocal(s.pc.ret), cur := s.cur.(batch := []),
         hist := s.hist.(pooled := s.hist.pooled + s.cur.batch))
    case CommitLocal(applied) =>
      // the tracker never moves backwards
      s.(pc := CommittingRemote(s.pc.ret),
         disk := if applied && s.cur.nextCommit > s.disk.local then s.disk.(local := s.cur.nextCommit) else s.disk,
         hist := s.hist.(attempts := s.hist.attempts + [s.cur.nextCommit]))
    case CommitRemote(applied) =>
      s.(pc := ReturnTo(s.pc.ret), cur := s.cur.(start := s.cur.nextCommit),
         disk := if applied then s.disk.(remote := s.cur.nextCommit) else s.disk)
    case Crash(part) => s.(pc := Down, disk := s.disk.(stored := s.disk.stored + part))
  }

  /** The parser hands over a record's events; then a full batch or a due timer means a flush, which
      on an empty batch only moves `start`. */
  function ApplyConsume(c: Config, log: Log, s: State, timerDue: bool): State
    requires s.cur.next < |log|
  {
    var events := RecordEvents(log, s.cur.next);
    var batch := s.cur.batch + events;
    var past := s.cur.next + 1;
    var hist := s.hist.(handed := s.hist.handed + events);
    if |batch| >= c.batchSize || timerDue then
      if batch == [] then s.(cur := Cursor(past, batch, past, s.cur.fetched, past), hist := hist)
      else State(Storing(Resume), s.disk, Cursor(s.cur.start, batch, past, s.cur.fetched, past), hist)
    else s.(cur := Cursor(s.cur.start, batch, past, s.cur.fetched, past), hist := hist)
  }

  /** The state a run ends in; None when some step of the run was not possible. */
  function After(c: Config, log: Log, run: seq<Action>): Option<State> {
    if run == [] then Some(INITIAL)
    else
      var front := After(c, log, run[..|run| - 1]);
      if front.Some? && Enabled(c, log, front.value, run[|run| - 1])
      then Some(Apply(c, log, front.value, run[|run| - 1]))
      else None
  }

  lemma AfterStep(c: Config, log: Log, run: seq<Action>, a: Action)
    requires After(c, log, run).Some?
    requires Enabled(c, log, After(c, log, run).value, a)
    ensures After(c, log, run + [a]) == Some(Apply(c, log, After(c, log, run).value, a))
  {
    assert (run + [a])[..|run|] == run;
  }

  // ------------------------------------------------------------------ invariants

  ghost predicate Covered(log: Log, stored: multiset<Event>, offset: nat) {
    offset <= |log| && multiset(EventsIn(log, 0, offset)) <= stored
  }

  /** The offset below which this incarnation has attempted to commit. */
  function LastAttempt(s: State): nat {
    if s.hist.attempts == [] then s.hist.origin else s.hist.attempts[|s.hist.attempts| - 1]
  }

  /** Control flow: what the worker's variables hold at each program point. */
  ghost predicate Shape(log: Log, s: State) {
    s.pc != Down ==>
      && s.cur.start <= |log|
      && match s.pc
         case Down => true
         case Head => s.cur.batch == [] && s.cur.next == s.cur.start
         case Consuming =>
           && s.cur.start <= s.cur.next <= s.cur.fetched <= |log|
           && s.cur.batch == EventsIn(log, s.cur.start, s.cur.next)
           && (s.cur.nextCommit == s.cur.next || (s.cur.nextCommit == 0 && s.cur.next == s.cur.start))
         case Storing(ret) => Filled(log, s) && ret != Exit
         case Pooling(ret) => Filled(log, s) && ret != Exit
         case CommittingLocal(ret) => Flushed(log, s) && ret != Exit
         case CommittingRemote(ret) => Flushed(log, s) && ret != Exit
  }

  ghost predicate Filled(log: Log, s: State) {
    && s.cur.start < s.cur.nextCommit == s.cur.next <= s.cur.fetched <= |log|
    && s.cur.batch != []
    && s.cur.batch == EventsIn(log, s.cur.start, s.cur.nextCommit)
  }

  ghost predicate Flushed(log: Log, s: State) {
    && s.cur.start < s.cur.nextCommit == s.cur.next <= s.cur.fetched <= |log|
    && s.cur.batch == []
  }

  /** Durability, for a worker that really stores. */
  ghost predicate Durable(log: Log, s: State) {
    && Covered(log, s.disk.stored, s.disk.local)
    && Covered(log, s.disk.stored, s.disk.remote)
    && (s.pc != Down ==> Covered(log, s.disk.stored, s.cur.start))
    && (s.pc.Pooling? || s.pc.CommittingLocal? || s.pc.CommittingRemote? ==>
          Covered(log, s.disk.stored, s.cur.nextCommit))
  }

  /** Committed offsets lie inside the log, stored or not. */
  ghost predicate Bounded(log: Log, s: State) {
    s.disk.local <= |log| && s.disk.remote <= |log|
  }

  lemma CoveredGrows(log: Log, a: multiset<Event>, b: multiset<Event>, offset: nat)
    requires a <= b
    requires Covered(log, a, offset)
    ensures Covered(log, b, offset)
  {
  }

  lemma CoveredExtends(log: Log, stored: multiset<Event>, lo: nat, hi: nat)
    requires lo <= hi <= |log| && Covered(log, stored, lo)
    ensures Covered(log, stored + multiset(EventsIn(log, lo, hi)), hi)
  {
    EventsInSplit(log, 0, lo, hi);
  }

  lemma EmptySlice(log: Log, at: nat)
    requires at <= |log|
    ensures EventsIn(log, at, at) == []
  {
  }

  lemma {:induction false} ShapeStep(c: Config, log: Log, s: State, a: Action)
    requires c.batchSize > 0
    requires Enabled(c, log, s, a) && Bounded(log, s) && Shape(log, s)
    ensures Bounded(log, Apply(c, log, s, a)) && Shape(log, Apply(c, log, s, a))
  {
    if s.pc == Consuming {
      EmptySlice(log, s.cur.start);
    }
  }

  lemma DurableBoot(c: Config, log: Log, s: State, a: Action)
    requires a.Boot? && Enabled(c, log, s, a) && Durable(log, s)
    ensures Durable(log, Apply(c, log, s, a))
  {
    EmptySlice(log, 0);
  }

  /** Records without events can be skipped: coverage carries over them. */
  lemma CoveredSkips(log: Log, stored: multiset<Event>, lo: nat, hi: nat)
    requires lo <= hi <= |log| && Covered(log, stored, lo)
    requires EventsIn(log, lo, hi) == []
    ensures Covered(log, stored, hi)
  {
    CoveredExtends(log, stored, lo, hi);
    assert stored + multiset(EventsIn(log, lo, hi)) == stored;
  }

  /** A step that stores and commits nothing keeps durability when the records its `start` moves
      over held no event. */
  lemma DurableMoves(log: Log, s: State, t: State)
    requires Durable(log, s) && s.pc == Consuming
    requires t.disk.stored == s.disk.stored && t.disk.local == s.disk.local && t.disk.remote == s.disk.remote
    requires s.cur.start <= t.cur.start <= |log| && EventsIn(log, s.cur.start, t.cur.start) == []
    requires t.pc == Consuming || t.pc.Storing?
    ensures Durable(log, t)
  {
    CoveredSkips(log, s.disk.stored, s.cur.start, t.cur.start);
  }

  lemma ConsumeMoves(c: Config, log: Log, s: State, a: Action)
    requires c.batchSize > 0
    requires a.Consume? && Enabled(c, log, s, a) && Shape(log, s)
    ensures var t := Apply(c, log, s, a);
            && t.disk.stored == s.disk.stored && t.disk.local == s.disk.local && t.disk.remote == s.disk.remote
            && s.cur.start <= t.cur.start <= |log| && EventsIn(log, s.cur.start, t.cur.start) == []
            && (t.pc == Consuming || t.pc.Storing?)
  {
    EmptySlice(log, s.cur.start);
    assert EventsIn(log, s.cur.start, s.cur.next + 1) == s.cur.batch + RecordEvents(log, s.cur.next);
  }

  lemma DurableEndRound(c: Config, log: Log, s: State)
    requires !c.shadow
    requires Enabled(c, log, s, EndRound) && Shape(log, s) && Durable(log, s)
    ensures Durable(log, Apply(c, log, s, EndRound))
  {
    if s.cur.batch == [] && s.cur.nextCommit > s.cur.start {
      CoveredSkips(log, s.disk.stored, s.cur.start, s.cur.nextCommit);
    }
  }

  lemma DurableStore(c: Config, log: Log, s: State, a: Action)
    requires !c.shadow
    requires a.StoreOk? || a.StoreFail? || a.Crash?
    requires Enabled(c, log, s, a) && Shape(log, s) && Durable(log, s)
    ensures Durable(log, Apply(c, log, s, a))
  {
    var t := Apply(c, log, s, a);
    CoveredGrows(log, s.disk.stored, t.disk.stored, s.disk.local);
    CoveredGrows(log, s.disk.stored, t.disk.stored, s.disk.remote);
    if a.StoreOk? {
      CoveredGrows(log, s.disk.stored, t.disk.stored, s.cur.start);
      CoveredExtends(log, s.disk.stored, s.cur.start, s.cur.nextCommit);
    }
  }

  lemma DurableStep(c: Config, log: Log, s: State, a: Action)
    requires c.batchSize > 0 && !c.shadow
    requires Enabled(c, log, s, a) && Shape(log, s) && Durable(log, s)
    ensures Durable(log, Apply(c, log, s, a))
  {
    match a
    case Boot(_, _) => DurableBoot(c, log, s, a);
    case Consume(_) =>
      ConsumeMoves(c, log, s, a);
      DurableMoves(log, s, Apply(c, log, s, a));
    case EndRound => DurableEndRound(c, log, s);
    case StoreOk => DurableStore(c, log, s, a);
    case StoreFail(_) => DurableStore(c, log, s, a);
    case Crash(_) => DurableStore(c, log, s, a);
    case Cancelled =>
    case FetchFailed =>
    case FetchOk(_) =>
    case StoreShadow =>
    case PutBack =>
    case CommitLocal(_) =>
    case CommitRemote(_) =>
  }

  // ------------------------------------------------------------------ ownership of events

  /** Everything handed over so far, in log order, is pooled, then in the batch, then abandoned. */
  ghost predicate Owned(log: Log, s: State) {
    && s.hist.origin <= s.cur.next <= |log|
    && s.hist.handed == EventsIn(log, s.hist.origin, s.cur.next)
    && s.hist.handed == s.hist.pooled + s.cur.batch + s.hist.abandoned
    && (s.pc != Down ==> s.hist.abandoned == [])
  }

  /** A worker that really stores has added its stored batches, and nothing else, to the store; and
      it pools an event only after the batch holding it was stored. */
  ghost predicate PooledAfterStore(s: State) {
    && s.hist.base + multiset(Flatten(s.hist.batches)) <= s.disk.stored
    && (s.pc != Down ==> s.disk.stored == s.hist.base + multiset(Flatten(s.hist.batches)))
    && if s.pc.Pooling? then Flatten(s.hist.batches) == s.hist.pooled + s.cur.batch
    else s.hist.pooled <= Flatten(s.hist.batches) && (s.pc != Down ==> s.hist.pooled == Flatten(s.hist.batches))
  }

  lemma OwnedConsume(c: Config, log: Log, s: State, a: Action)
    requires a.Consume? && Enabled(c, log, s, a) && Shape(log, s) && Owned(log, s)
    ensures Owned(log, Apply(c, log, s, a))
  {
    var t := Apply(c, log, s, a);
    assert t.hist.origin == s.hist.origin && t.cur.next == s.cur.next + 1;
    assert t.hist.handed == s.hist.handed + RecordEvents(log, s.cur.next)
        == EventsIn(log, s.hist.origin, s.cur.next + 1);
  }

  lemma {:induction false} OwnedStep(c: Config, log: Log, s: State, a: Action)
    requires Enabled(c, log, s, a) && Bounded(log, s) && Shape(log, s) && Owned(log, s)
    ensures Owned(log, Apply(c, log, s, a))
  {
    if a.Consume? {
      OwnedConsume(c, log, s, a);
    } else if a.Boot? {
      EmptySlice(log, ResumeOffset(s.disk, a.localReadable, a.remoteReadable));
    } else {
      var t := Apply(c, log, s, a);
      assert t.hist.origin == s.hist.origin && t.cur.next == s.cur.next && t.hist.handed == s.hist.handed;
    }
  }

  lemma PooledStoreOk(c: Config, log: Log, s: State)
    requires Enabled(c, log, s, StoreOk) && PooledAfterStore(s)
    ensures PooledAfterStore(Apply(c, log, s, StoreOk))
  {
    FlattenSnoc(s.hist.batches, s.cur.batch);
    assert multiset(Flatten(s.hist.batches) + s.cur.batch) == multiset(Flatten(s.hist.batches)) + multiset(s.cur.batch);
  }

  lemma PooledPutBack(c: Config, log: Log, s: State)
    requires Enabled(c, log, s, PutBack) && PooledAfterStore(s)
    ensures PooledAfterStore(Apply(c, log, s, PutBack))
  {
  }

  /** Steps that neither pool nor store a batch, or that take the worker down. */
  lemma PooledFrame(s: State, t: State)
    requires PooledAfterStore(s)
    requires t.hist.batches == s.hist.batches && t.hist.base == s.hist.base && t.hist.pooled == s.hist.pooled
    requires if t.pc == Down then s.disk.stored <= t.disk.stored
             else s.pc != Down && !s.pc.Pooling? && !t.pc.Pooling? && s.disk.stored == t.disk.stored
    ensures PooledAfterStore(t)
  {
    if s.pc.Pooling? {
      assert s.hist.pooled <= s.hist.pooled + s.cur.batch;
    }
  }

  lemma OtherStepsKeepBatches(c: Config, log: Log, s: State, a: Action)
    requires !c.shadow && !a.StoreOk? && !a.PutBack? && !a.Boot?
    requires Enabled(c, log, s, a)
    ensures var t := Apply(c, log, s, a);
            && t.hist.batches == s.hist.batches && t.hist.base == s.hist.base && t.hist.pooled == s.hist.pooled
            && if t.pc == Down then s.disk.stored <= t.disk.stored
               else s.pc != Down && !s.pc.Pooling? && !t.pc.Pooling? && s.disk.stored == t.disk.stored
  {
  }

  lemma {:induction false} PooledStep(c: Config, log: Log, s: State, a: Action)
    requires !c.shadow
    requires Enabled(c, log, s, a) && PooledAfterStore(s)
    ensures PooledAfterStore(Apply(c, log, s, a))
  {
    if a == StoreOk {
      PooledStoreOk(c, log, s);
    } else if a == PutBack {
      PooledPutBack(c, log, s);
    } else if a.Boot? {
      assert Flatten<Event>([]) == [];
    } else {
      OtherStepsKeepBatches(c, log, s, a);
      PooledFrame(s, Apply(c, log, s, a));
    }
  }

  // ------------------------------------------------------------------ commit attempts

  ghost predicate Increasing(xs: seq<nat>) {
    forall i, j :: 0 <= i < j < |xs| ==> xs[i] < xs[j]
  }

  ghost predicate Attempts(log: Log, s: State) {
    && Increasing(s.hist.attempts)
    && (forall i :: 0 <= i < |s.hist.attempts| ==> s.hist.origin < s.hist.attempts[i])
    && (s.pc != Down ==>
          && s.hist.origin <= s.cur.start
          && if s.pc.CommittingRemote? then s.hist.attempts != [] && LastAttempt(s) == s.cur.nextCommit
             else LastAttempt(s) <= s.cur.start)
  }

  /** For a worker that really stores: nothing was parsed between the last attempt and `start`. */
  ghost predicate Quiet(log: Log, s: State) {
    s.pc != Down && !s.pc.CommittingRemote? ==>
      LastAttempt(s) <= s.cur.start <= |log| && EventsIn(log, LastAttempt(s), s.cur.start) == []
  }

  lemma {:induction false} AttemptsStep(c: Config, log: Log, s: State, a: Action)
    requires c.batchSize > 0
    requires Enabled(c, log, s, a) && Shape(log, s) && Attempts(log, s)
    ensures Attempts(log, Apply(c, log, s, a))
  {
    var t := Apply(c, log, s, a);
    if !a.CommitLocal? && !a.Boot? {
      assert t.hist.attempts == s.hist.attempts && t.hist.origin == s.hist.origin;
      assert LastAttempt(t) == LastAttempt(s);
    }
  }

  lemma QuietConsume(c: Config, log: Log, s: State, a: Action)
    requires c.batchSize > 0
    requires a.Consume? && Enabled(c, log, s, a) && Shape(log, s) && Quiet(log, s)
    ensures Quiet(log, Apply(c, log, s, a))
  {
    var t := Apply(c, log, s, a);
    ConsumeMoves(c, log, s, a);
    EventsInSplit(log, LastAttempt(s), s.cur.start, t.cur.start);
    assert LastAttempt(t) == LastAttempt(s);
  }

  lemma {:induction false} QuietStep(c: Config, log: Log, s: State, a: Action)
    requires c.batchSize > 0 && !c.shadow
    requires Enabled(c, log, s, a) && Bounded(log, s) && Shape(log, s) && Attempts(log, s) && Quiet(log, s)
    ensures Quiet(log, Apply(c, log, s, a))
  {
    var t := Apply(c, log, s, a);
    if a.Boot? {
      EmptySlice(log, ResumeOffset(s.disk, a.localReadable, a.remoteReadable));
    } else if a.Consume? {
      QuietConsume(c, log, s, a);
    } else if a.CommitRemote? {
      EmptySlice(log, s.cur.nextCommit);
    } else if !a.CommitLocal? {
      assert LastAttempt(t) == LastAttempt(s) && t.cur.start == s.cur.start;
    }
  }
}
