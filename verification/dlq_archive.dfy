/** Archiving the dead-letter stream to a file, as the program does it: batches, records, a buffered
    writer. Each method records the protocol steps it takes, so what is proved of runs of the protocol
    holds after every call, and every moment in between is a point of the recorded run. */
module DlqArchive {
  import opened Options
  import opened Surroundings
  import opened DlqFrames
  import opened DlqMessages
  import opened DlqProtocol

  /** Entry ids increase from above the start id 0-0. */
  ghost predicate IdsIncrease(ms: seq<Message>) {
    && (forall i :: 0 <= i < |ms| ==> ms[i].id > 0)
    && (forall i, j :: 0 <= i < j < |ms| ==> ms[i].id < ms[j].id)
  }

  ghost predicate AllAfter(ms: seq<Message>, id: int) {
    forall i :: 0 <= i < |ms| ==> ms[i].id > id
  }

  /** Entries after the given id, oldest first, at most `count` of them if that is positive. */
  function XRead(stream: seq<Message>, startId: int, count: int): seq<Message> {
    if stream == [] then []
    else if stream[0].id <= startId then XRead(stream[1..], startId, count)
    else if 0 < count < |stream| then stream[..count] else stream
  }

  lemma XReadIsFront(stream: seq<Message>, startId: int, count: int)
    requires AllAfter(stream, startId)
    ensures XRead(stream, startId, count) <= stream
    ensures |XRead(stream, startId, count)| == if 0 < count < |stream| then count else |stream|
    ensures XRead(stream, startId, count) == [] <==> stream == []
  {
  }

  /** Every message can be printed as a dead-letter event, at any time. */
  ghost predicate AllPrintable(codec: Codec, ms: seq<Message>) {
    forall m, now :: m in ms ==> codec.marshalDlq(Normalised(codec, m, now)).Some?
  }

  class DeadLetters {
    const codec: Codec
    ghost const all: seq<Message>
    ghost const before: Bytes
    var stream: seq<Message>
    /** The archive file, and what the buffered writer still holds. */
    var file: Bytes
    var buffer: Bytes
    ghost var events: seq<DlqEvent>
    ghost var steps: seq<Action>
    ghost var model: State

    constructor (codec: Codec, stream: seq<Message>, file: Bytes)
      requires IdsIncrease(stream)
      ensures Valid() && this.codec == codec && this.stream == all == stream && this.file == before == file
      ensures model == Init(file)
    {
      this.codec, this.stream, this.file, buffer := codec, stream, file, [];
      all, before := stream, file;
      events, steps, model := [], [], Init(file);
    }

    ghost predicate Valid()
      reads this
    {
      && After(|all|, before, steps) == Some(model) && model.out == Output(file, buffer)
      && IdsIncrease(all) && model.deleted <= |all| && stream == all[model.deleted..]
      && |model.records| <= |all| && RecordsOf(codec, all[..|model.records|], events, model.records)
    }

    ghost method Step(a: Action)
      requires After(|all|, before, steps) == Some(model) && Enabled(|all|, model, a)
      modifies this`steps, this`model
      ensures steps == old(steps) + [a] && model == Apply(|all|, old(model), a)
      ensures After(|all|, before, steps) == Some(model)
    {
      AfterStep(|all|, before, steps, a);
      steps, model := steps + [a], Apply(|all|, model, a);
    }

    /** The writer hands over any first part of its buffer. */
    method SpillSome()
      requires Valid() && Live(model)
      modifies this`file, this`buffer, this`steps, this`model
      ensures Valid() && old(steps) <= steps
      ensures model == old(model).(out := model.out)
    {
      var n := *;
      if 0 <= n <= |buffer| {
        file, buffer := file + buffer[..n], buffer[n..];
        Step(Spill(n));
      }
    }

    /** Normalise, marshal, write length and data. */
    method ArchiveOne(m: Message, now: int) returns (ok: bool, ghost trouble: bool)
      requires Valid() && model.pc.Putting? && |model.records| < |all| && all[|model.records|] == m
      modifies this
      ensures Valid() && old(steps) <= steps && stream == old(stream)
      ensures ok ==> OneMore(old(model))
      ensures !ok ==> model.pc == Flushing(false)
      ensures ok <==> !trouble && codec.marshalDlq(Normalised(codec, m, now)).Some?
    {
      trouble := false;
      var event := Normalised(codec, m, now);
      var data := codec.marshalDlq(event);
      if data.None? {
        assert buffer + Frame([])[..0] == buffer;
        Step(PutFails([], 0));
        return false, trouble;
      }
      ok := Happens();
      trouble := !ok;
      if !ok {
        Interrupted(data.value);
        return;
      }
      var length := Be32(|data.value| % TWO32);
      assert (buffer + length) + data.value == buffer + Frame(data.value);
      buffer := buffer + length;
      buffer := buffer + data.value;
      NormalisedKeepsTheEvent(codec, m, now);
      RecordsOfSnoc(codec, all, events, model.records, event, data.value);
      Step(Put(data.value));
      events := events + [event];
      SpillSome();
    }

    /** A write that fails may have got some of the frame into the buffer. */
    method Interrupted(data: Bytes)
      requires Valid() && model.pc.Putting?
      modifies this
      ensures Valid() && old(steps) <= steps && stream == old(stream) && model.pc == Flushing(false)
    {
      var cut := *;
      if !(0 <= cut < 4 + |data|) {
        cut := 0;
      }
      var frame := Be32(|data| % TWO32) + data;
      buffer := buffer + frame[..cut];
      Step(PutFails(data, cut));
    }

    /** One record more, nothing else; the batch goes on, or is complete. */
    ghost predicate OneMore(was: State)
      requires was.pc.Putting?
      reads this
    {
      && |model.records| == |was.records| + 1 && model.deleted == was.deleted
      && model.pc == if |model.records| < was.pc.upTo then was.pc else Deleting(was.pc.upTo)
    }

    /** The records of a batch, one after the other. */
    method ArchiveMessages(batch: seq<Message>) returns (ok: bool, lastId: int, ghost trouble: bool)
      requires Valid() && model.pc == Batching && model.deleted == |model.records| && batch != [] && batch <= stream
      modifies this
      ensures Valid() && old(steps) <= steps && stream == old(stream)
      ensures ok ==> model.pc == Deleting(old(model.deleted) + |batch|) && model.deleted == old(model.deleted)
      ensures ok ==> lastId == batch[|batch| - 1].id
      ensures !ok ==> model.pc == Flushing(false)
      ensures AllPrintable(codec, batch) && !trouble ==> ok
    {
      ghost var start := model.deleted;
      Step(ReadBatch(start + |batch|));
      ok, lastId, trouble := true, 0, false;
      for i := 0 to |batch|
        invariant ok && Valid() && old(steps) <= steps && stream == old(stream)
        invariant model.deleted == start && |model.records| == start + i
        invariant model.pc == if i < |batch| then Putting(start + |batch|) else Deleting(start + |batch|)
        invariant (i > 0 ==> lastId == batch[i - 1].id) && !trouble
      {
        assert all[start + i] == stream[i] == batch[i];
        var now := *;
        ok, trouble := ArchiveOne(batch[i], now);
        if !ok {
          return;
        }
        lastId := batch[i].id;
      }
    }

    /** Deleting a batch from the stream. A call that fails may have been carried out. */
    method XDel(batch: seq<Message>) returns (ok: bool, ghost trouble: bool)
      requires Valid() && batch <= stream && model.pc == Deleting(model.deleted + |batch|)
      modifies this
      ensures Valid() && old(steps) <= steps
      ensures ok ==> model.pc == Batching && stream == old(stream)[|batch|..]
      ensures !ok ==> model.pc == Flushing(false)
      ensures ok <==> !trouble
    {
      ok := Happens();
      trouble := !ok;
      var done := Happens();
      if ok || done {
        assert stream[|batch|..] == all[model.deleted + |batch|..];
        stream := stream[|batch|..];
      }
      Step(if ok then DeleteDone else DeleteFails(done));
    }

    /** Between batches: what is archived is what is gone from the stream. */
    ghost predicate Between(startId: int)
      reads this
    {
      Valid() && model.pc == Batching && model.deleted == |model.records| && AllAfter(stream, startId)
    }

    /** A batch leaves the stream only after all of its records were given to the writer. */
    method ArchiveBatch(batch: seq<Message>, startId: int) returns (ok: bool, lastId: int, ghost trouble: bool)
      requires Between(startId) && batch != [] && batch <= stream
      modifies this
      ensures Valid() && old(steps) <= steps
      ensures ok ==> Between(lastId) && |stream| == |old(stream)| - |batch|
      ensures !ok ==> model.pc == Flushing(false)
      ensures AllPrintable(codec, batch) && !trouble ==> ok
    {
      ok, lastId, trouble := ArchiveMessages(batch);
      if !ok {
        return;
      }
      RestIsAfter(all, model.deleted, |batch|);
      ok, trouble := XDel(batch);
      RunInvariant(|all|, before, steps);
    }

    /** One round: read a batch; an empty one ends the loop. */
    method ArchiveNext(batchSize: int, startId: int)
      returns (ok: bool, more: bool, lastId: int, ghost trouble: bool)
      requires Between(startId)
      modifies this
      ensures Valid() && old(steps) <= steps
      ensures more ==> ok && Between(lastId) && |stream| < |old(stream)|
      ensures !more ==> model.pc == Flushing(ok)
      ensures AllPrintable(codec, all) && !trouble ==> ok
    {
      var readFailed := Happens();
      trouble := readFailed;
      if readFailed {
        Step(ReadFails);
        return false, false, startId, trouble;
      }
      XReadIsFront(stream, startId, batchSize);
      var batch := XRead(stream, startId, batchSize);
      if batch == [] {
        Step(ReadNothing);
        return true, false, startId, trouble;
      }
      assert forall m :: m in batch ==> m in all;
      ok, lastId, trouble := ArchiveBatch(batch, startId);
      more := ok;
    }

    /** The flush on the way out; its error is dropped. */
    method FlushOut(ghost ok: bool) returns (flushed: bool, ghost trouble: bool)
      requires Valid() && model.pc == Flushing(ok)
      modifies this
      ensures Valid() && old(steps) <= steps && model.pc == Returned(ok, flushed)
      ensures !trouble ==> flushed
    {
      var failed := Happens();
      trouble := failed;
      var n := *;
      if !failed || !(0 <= n <= |buffer|) {
        n := |buffer|;
      }
      flushed := n == |buffer|;
      file, buffer := file + buffer[..n], [];
      Step(Flush(n));
    }

    /** Batch after batch until the stream is empty, then the flush. Success empties the stream; the
        file is complete, and no message is lost, exactly if the flush worked as well. If nothing is in the way,
        both come about. */
    method ArchiveDLQ(batchSize: int) returns (ok: bool, flushed: bool, ghost trouble: bool)
      requires Between(0)
      modifies this
      ensures Valid() && old(steps) <= steps && model.pc == Returned(ok, flushed)
      ensures ok ==> stream == [] && (flushed <==> Faithfully(codec, Archived(), file))
      ensures ok ==> (flushed <==> Kept(|all|, before, model))
      ensures AllPrintable(codec, all) && !trouble ==> ok && flushed
    {
      var startId, more := 0, true;
      ok, trouble := true, false;
      while more
        invariant old(steps) <= steps && (more ==> Between(startId))
        invariant Valid() && (!more ==> model.pc == Flushing(ok))
        invariant AllPrintable(codec, all) && !trouble ==> ok
        decreases more, |stream|
      {
        ghost var here;
        ok, more, startId, here := ArchiveNext(batchSize, startId);
        trouble := trouble || here;
      }
      ghost var late;
      flushed, late := FlushOut(ok);
      trouble := trouble || late;
      if ok {
        SuccessKeepsIff(|all|, before, steps);
      }
    }

    /** What this run has archived. */
    ghost function Archived(): Log
      reads this
    {
      Log(all, before, events, model.records)
    }
  }

  lemma RestIsAfter(all: seq<Message>, deleted: nat, n: nat)
    requires IdsIncrease(all) && 0 < n <= |all| - deleted
    ensures all[deleted..][n..] == all[deleted + n..]
    ensures AllAfter(all[deleted + n..], all[deleted..][n - 1].id)
  {
  }
}
