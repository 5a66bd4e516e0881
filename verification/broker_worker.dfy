/** The partition worker as the program it is: loops over fetched records, a reused batch, a store
    and two places where the committed offset is kept. Each method records the protocol step it
    takes, so everything proved of runs of the protocol holds after every call. */
module BrokerWorker {
  import opened Options
  import opened BrokerLog
  import opened BrokerProtocol
  import opened BrokerTheorems
  import opened Surroundings

  /** A fetch returns some number of consecutive records from `start`. */
  method FetchEnd(start: nat, limit: nat) returns (end: nat)
    requires start <= limit
    ensures start <= end <= limit
  {
    end := *;
    if end < start || limit < end { end := start; }
  }

  /** What a store that reports failure may have written all the same. */
  method PartOf(batch: seq<Event>) returns (part: multiset<Event>)
    ensures part <= multiset(batch)
  {
    part := *;
    if !(part <= multiset(batch)) { part := multiset{}; }
  }

  class Worker {
    const cfg: Config
    const log: Log
    var store: multiset<Event>
    var tracker: nat
    var remote: nat
    var pool: seq<Event>
    ghost var run: seq<Action>
    ghost var model: State  // the state `run` ends in

    /** A fresh deployment: nothing stored, nothing committed. */
    constructor (cfg: Config, log: Log)
      requires cfg.batchSize > 0
      ensures this.cfg == cfg && this.log == log
      ensures Valid() && model == INITIAL
    {
      this.cfg, this.log := cfg, log;
      store, tracker, remote, pool, run, model := multiset{}, 0, 0, [], [], INITIAL;
    }

    ghost predicate Valid()
      reads this
    {
      && cfg.batchSize > 0
      && After(cfg, log, run) == Some(model)
      && store == model.disk.stored && tracker == model.disk.local && remote == model.disk.remote
      && (model.pc != Down ==> pool == model.hist.pooled)
    }

    ghost method Record(a: Action)
      requires After(cfg, log, run) == Some(model) && Enabled(cfg, log, model, a)
      modifies this`run, this`model
      ensures run == old(run) + [a]
      ensures After(cfg, log, run) == Some(model) && model == Apply(cfg, log, old(model), a)
    {
      AfterStep(cfg, log, run, a);
      run := run + [a];
      model := Apply(cfg, log, model, a);
    }

    /** Both commits are best effort: the tracker only moves forward, errors are ignored. */
    method CommitOffset(offset: nat) returns (ghost localOk: bool, ghost remoteOk: bool)
      requires Valid() && model.pc.CommittingLocal? && model.cur.nextCommit == offset
      modifies this
      ensures Valid() && old(run) <= run && store == old(store) && pool == old(pool)
      ensures tracker == if localOk && offset > old(tracker) then offset else old(tracker)
      ensures remote == if remoteOk then offset else old(remote)
      ensures model == State(ReturnTo(old(model.pc.ret)), Disk(store, tracker, remote),
                old(model.cur).(start := offset),
                old(model.hist).(attempts := old(model.hist.attempts) + [offset]))
    {
      var localDone := Happens();
      if localDone && offset > tracker {
        tracker := offset;
      }
      Record(CommitLocal(localDone));
      var remoteDone := Happens();
      if remoteDone {
        remote := offset;
      }
      Record(CommitRemote(remoteDone));
      localOk, remoteOk := localDone, remoteDone;
    }

    /** Stores the batch, gives its events back and commits; or reports failure and commits nothing. */
    method FlushBatch(batch: seq<Event>, nextCommit: nat) returns (committed: nat, ok: bool, ghost trouble: bool)
      requires Valid() && batch == model.cur.batch && nextCommit == model.cur.nextCommit
      requires if batch == [] then model.pc == Consuming && model.cur.start == nextCommit else model.pc.Storing?
      modifies this
      ensures Valid() && old(run) <= run
      ensures ok <==> !trouble
      ensures ok ==> committed == nextCommit && pool == old(pool) + batch
      ensures ok ==> store == if cfg.shadow then old(store) else old(store) + multiset(batch)
      ensures ok ==> model.cur == old(model.cur).(start := nextCommit, batch := [])
      ensures ok ==> (if batch == [] || cfg.shadow then model.hist.attempts == old(model.hist.attempts)
                      else model.hist.attempts == old(model.hist.attempts) + [nextCommit])
      ensures ok ==> model.hist.origin == old(model.hist.origin) && model.hist.base == old(model.hist.base)
      ensures ok ==> model.pc == if batch == [] then Consuming else ReturnTo(old(model.pc.ret))
      ensures !ok ==> !cfg.shadow && model.pc == Down
      ensures !ok ==> tracker == old(tracker) && remote == old(remote) && pool == old(pool)
      ensures !ok ==> old(store) <= store <= old(store) + multiset(batch)
    {
      if |batch| == 0 {
        return nextCommit, true, false;
      }
      if cfg.shadow {
        GiveBack(batch);
        Record(StoreShadow);
        return nextCommit, true, false;
      }
      var failed := Happens();
      if failed {
        var part := PartOf(batch);
        store := store + part;
        Record(StoreFail(part));
        return 0, false, failed;
      }
      store := store + multiset(batch);
      Record(StoreOk);
      GiveBack(batch);
      Record(PutBack);
      ghost var localOk, remoteOk := CommitOffset(nextCommit);
      return nextCommit, true, failed;
    }

    method GiveBack(batch: seq<Event>)
      modifies this`pool
      ensures pool == old(pool) + batch
    {
      for i := 0 to |batch|
        invariant pool == old(pool) + batch[..i]
      {
        pool := pool + [batch[i]];
      }
    }

    /** Shutdown at the top of the loop: the batch is empty there, so nothing is flushed. */
    method Drain(start: nat, batch: seq<Event>)
      requires Valid() && model.pc == Head && model.cur.start == start && model.cur.batch == batch
      modifies this
      ensures Valid() && old(run) <= run && model.pc == Down
      ensures store == old(store) && tracker == old(tracker) && remote == old(remote) && pool == old(pool)
    {
      RunInvariant(cfg, log, run);
      Record(Cancelled);
      if |batch| == 0 {
        return;
      }
      assert false;
    }

    /** Control is at the top of the loop. */
    ghost predicate AtHead(origin: nat, base: multiset<Event>, start: nat)
      reads this
    {
      && Valid() && model.pc == Head && model.hist.origin == origin && model.hist.base == base
      && model.cur.start == start <= |log| && model.cur.batch == []
    }

    /** Control is in the record loop. */
    ghost predicate InRound(origin: nat, base: multiset<Event>, start: nat, batch: seq<Event>, next: nat,
                            fetched: nat, nextCommit: nat)
      reads this
    {
      && Valid() && model.pc == Consuming && model.hist.origin == origin && model.hist.base == base
      && model.cur.start == start && model.cur.batch == batch
      && model.cur.next == next && model.cur.fetched == fetched <= |log| && model.cur.nextCommit == nextCommit
    }

    /** One turn of the record loop: the parser's callback appends the record's events to the batch,
        which is flushed when it is full or the timer is due. */
    method TakeRecord(ghost origin: nat, ghost base: multiset<Event>,
                      start: nat, batch: seq<Event>, next: nat, ghost fetched: nat, ghost nextCommit: nat)
      returns (start': nat, batch': seq<Event>, failed: bool, ghost due: bool, ghost trouble: bool)
      requires InRound(origin, base, start, batch, next, fetched, nextCommit) && next < fetched
      modifies this
      ensures Valid() && old(run) <= run
      ensures !failed ==> InRound(origin, base, start', batch', next + 1, fetched, next + 1)
      ensures !failed ==> (if due || |batch + RecordEvents(log, next)| >= cfg.batchSize
                           then start' == next + 1 && batch' == []
                           else start' == start && batch' == batch + RecordEvents(log, next))
      ensures failed ==> !cfg.shadow && model.pc == Down
      ensures failed <==> trouble
    {
      trouble := false;
      var timerDue := Happens();
      due := timerDue;
      Record(Consume(timerDue));
      start', batch', failed := start, batch + RecordEvents(log, next), false;
      if |batch'| >= cfg.batchSize || timerDue {
        var committed, ok;
        committed, ok, trouble := FlushBatch(batch', next + 1);
        if ok {
          start', batch' := committed, [];
        } else {
          failed := true;
        }
      }
    }

    /** What follows the record loop: flush the rest, or commit past event-free records. */
    method FinishRound(ghost origin: nat, ghost base: multiset<Event>,
                       start: nat, batch: seq<Event>, ghost next: nat, ghost fetched: nat, nextCommit: nat)
      returns (start': nat, failed: bool, ghost trouble: bool)
      requires InRound(origin, base, start, batch, next, fetched, nextCommit)
      requires start <= |log| && nextCommit <= |log|
      modifies this
      ensures Valid() && old(run) <= run
      ensures !failed ==> AtHead(origin, base, start')
      ensures !failed ==> start' == (if batch != [] || nextCommit > start then nextCommit else start)
      ensures !failed && (if batch == [] then nextCommit > start else !cfg.shadow) ==>
                model.hist.attempts == old(model.hist.attempts) + [nextCommit]
      ensures !failed && (if batch == [] then nextCommit <= start else cfg.shadow) ==>
                model.hist.attempts == old(model.hist.attempts)
      ensures failed ==> !cfg.shadow && model.pc == Down
      ensures failed <==> trouble
    {
      trouble := false;
      Record(EndRound);
      start', failed := start, false;
      if |batch| > 0 {
        var committed, ok;
        committed, ok, trouble := FlushBatch(batch, nextCommit);
        if ok {
          start' := committed;
        } else {
          failed := true;
        }
      } else if nextCommit > start {
        ghost var localOk, remoteOk := CommitOffset(nextCommit);
        start' := nextCommit;
      }
    }

    /** One fetch and everything done with it. Unless the store fails or the worker is told to stop, the
        round ends behind the last record fetched. */
    method Round(ghost origin: nat, ghost base: multiset<Event>, from: nat)
      returns (start: nat, failed: bool, ghost fetchedTo: nat, ghost trouble: bool)
      requires AtHead(origin, base, from)
      modifies this
      ensures Valid() && old(run) <= run
      ensures !failed ==> AtHead(origin, base, start)
      ensures failed ==> !cfg.shadow && model.pc == Down && trouble
      ensures from <= fetchedTo <= |log| && (!trouble ==> start == fetchedTo)
    {
      start, failed, trouble := from, false, false;
      var batch: seq<Event> := [];
      var fetched := FetchEnd(start, |log|);
      fetchedTo := fetched;
      Record(FetchOk(fetched));
      var nextCommit, next := 0, start;
      while next < fetched
        invariant InRound(origin, base, start, batch, next, fetched, nextCommit)
        invariant old(run) <= run
        invariant start <= |log| && nextCommit <= next <= fetched && !trouble
        invariant from <= start <= next && (start < next || batch != [] ==> nextCommit == next)
      {
        var cancelled := Happens();
        if cancelled {
          trouble := true;
          break;
        }
        ghost var due;
        start, batch, failed, due, trouble := TakeRecord(origin, base, start, batch, next, fetched, nextCommit);
        if failed {
          return;
        }
        nextCommit, next := next + 1, next + 1;
        RunInvariant(cfg, log, run);
      }
      ghost var late;
      start, failed, late := FinishRound(origin, base, start, batch, next, fetched, nextCommit);
      trouble := trouble || late;
    }

    /** Picks the resume offset: the local tracker first, then the broker's. */
    method Boot() returns (start: nat, ghost localOk: bool, ghost remoteOk: bool)
      requires Valid() && model.pc == Down
      modifies this
      ensures old(run) <= run && AtHead(start, store, start)
      ensures store == old(store) && tracker == old(tracker) && remote == old(remote)
      ensures localOk && old(tracker) > 0 ==> start == old(tracker)
      ensures !(localOk && old(tracker) > 0) && remoteOk ==> start == old(remote)
      ensures !(localOk && old(tracker) > 0) && !remoteOk ==> start == 0
    {
      start := 0;
      var localReadable := Happens();
      if localReadable && tracker > 0 {
        start := tracker;
      }
      var remoteReadable := Happens();
      if start == 0 && remoteReadable {
        start := remote;
      }
      localOk, remoteOk := localReadable, remoteReadable;
      pool := [];
      Record(BrokerProtocol.Boot(localReadable, remoteReadable));
      RunInvariant(cfg, log, run);
    }

    /** Up to `rounds` turns of the worker's loop; every finite piece of its life is such a call.
        It boots at the tracker's offset if that can be read and is not 0, else at the broker's if that
        can be read, else at the beginning. Unless a store failed, store and pool have gained exactly
        the events between there and `at`. If nothing was in the way, each round that was not idle, in
        that its fetch gave something, has got it further. */
    method Run(rounds: nat)
      returns (from: nat, at: nat, failed: bool, ghost localOk: bool, ghost remoteOk: bool, ghost idle: nat,
               ghost trouble: bool)
      requires Valid() && model.pc == Down
      modifies this
      ensures Valid() && old(run) <= run
      ensures from == if localOk && old(tracker) > 0 then old(tracker) else if remoteOk then old(remote) else 0
      ensures !failed ==> from <= at <= |log| && pool == EventsIn(log, from, at)
      ensures !failed && !cfg.shadow ==> store == old(store) + multiset(EventsIn(log, from, at))
      ensures failed ==> !cfg.shadow && trouble
      ensures !trouble ==> at + idle >= from + rounds
      ensures !cfg.shadow ==> StoredBelow(log, store, tracker) && StoredBelow(log, store, remote)
    {
      at, localOk, remoteOk := Boot();
      from, failed, idle, trouble := at, false, 0, false;
      ghost var base := store;
      var k := rounds;
      while k > 0
        invariant AtHead(from, base, at) && old(run) <= run && k <= rounds
        invariant !failed && (!trouble ==> at + idle + k >= from + rounds)
      {
        var cancelled := Happens();
        if cancelled {
          trouble := true;
          break;
        }
        var fetchFailed := Happens();
        if fetchFailed {
          trouble := true;
          Record(FetchFailed);
        } else {
          ghost var fetchedTo, here;
          ghost var was := at;
          at, failed, fetchedTo, here := Round(from, base, at);
          trouble := trouble || here;
          idle := idle + if fetchedTo == was then 1 else 0;
          if failed {
            break;
          }
        }
        k := k - 1;
      }
      if !cfg.shadow {
        CommittedIsStored(cfg, log, run);
      }
      if !failed {
        RunInvariant(cfg, log, run);
        PooledUpToStart(log, model);
        Drain(at, []);
      }
    }
  }
}
