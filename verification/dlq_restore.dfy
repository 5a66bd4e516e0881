/** Restoring the original events of an archive to a stream, in batches. */
module DlqRestore {
  import opened Options
  import opened Surroundings
  import opened DlqFrames
  import opened DlqMessages

  // ------------------------------------------------------------------ emitting until something fails

  datatype Restored<D> = Skip | Fail | Emit(data: D)

  /** What comes out of a list of records, up to the first that fails. */
  datatype Emission<D> = Emission(out: seq<D>, ok: bool)

  function Emitted<R, D>(restore: R -> Restored<D>, records: seq<R>): Emission<D> {
    if records == [] then Emission([], true)
    else
      match restore(records[0])
      case Fail => Emission([], false)
      case Skip => Emitted(restore, records[1..])
      case Emit(data) =>
        var rest := Emitted(restore, records[1..]);
        Emission([data] + rest.out, rest.ok)
  }

  lemma {:induction false} EmittedAppend<R, D>(restore: R -> Restored<D>, a: seq<R>, b: seq<R>)
    requires Emitted(restore, a).ok
    ensures Emitted(restore, a + b)
         == Emission(Emitted(restore, a).out + Emitted(restore, b).out, Emitted(restore, b).ok)
  {
    if a == [] {
      assert a + b == b;
    } else {
      EmittedAppend(restore, a[1..], b);
      assert (a + b)[1..] == a[1..] + b;
      if restore(a[0]).Emit? {
        AppendAssociates([restore(a[0]).data], Emitted(restore, a[1..]).out, Emitted(restore, b).out);
      }
    }
  }

  lemma AppendAssociates<T>(a: seq<T>, b: seq<T>, c: seq<T>)
    ensures (a + b) + c == a + (b + c)
  {
  }

  /** `out` came out of the first records, `rest` is still to do. */
  ghost predicate Underway<R, D>(restore: R -> Restored<D>, all: seq<R>, rest: seq<R>, out: seq<D>) {
    |rest| <= |all| && rest == all[|all| - |rest|..] && Emitted(restore, all[..|all| - |rest|]) == Emission(out, true)
  }

  lemma UnderwayNext<R, D>(restore: R -> Restored<D>, all: seq<R>, rest: seq<R>, out: seq<D>)
    requires Underway(restore, all, rest, out) && rest != []
    ensures restore(rest[0]).Skip? ==> Underway(restore, all, rest[1..], out)
    ensures restore(rest[0]).Emit? ==> Underway(restore, all, rest[1..], out + [restore(rest[0]).data])
  {
    var n := |all| - |rest|;
    assert all[..n + 1] == all[..n] + [rest[0]];
    EmittedAppend(restore, all[..n], [rest[0]]);
    assert [rest[0]][1..] == [];
    assert out + [] == out;
  }

  lemma UnderwayIsPrefix<R, D>(restore: R -> Restored<D>, all: seq<R>, rest: seq<R>, out: seq<D>)
    requires Underway(restore, all, rest, out)
    ensures out <= Emitted(restore, all).out
    ensures rest == [] ==> Emitted(restore, all) == Emission(out, true)
  {
    var n := |all| - |rest|;
    EmittedAppend(restore, all[..n], rest);
    assert all[..n] + rest == all;
  }

  /** A record that fails makes the whole fail. */
  lemma UnderwayFails<R, D>(restore: R -> Restored<D>, all: seq<R>, rest: seq<R>, out: seq<D>)
    requires Underway(restore, all, rest, out) && rest != [] && restore(rest[0]).Fail?
    ensures !Emitted(restore, all).ok
  {
    var n := |all| - |rest|;
    EmittedAppend(restore, all[..n], rest);
    assert all[..n] + rest == all;
  }

  // ------------------------------------------------------------------ restoring one record

  /** One record: its original event, if it has one. */
  function RestoreOne(codec: Codec, record: Bytes): Restored<Bytes> {
    var event := codec.unmarshalDlq(record);
    if event.None? then Fail
    else if event.value.original.None? then Skip
    else
      var data := codec.marshalStream(event.value.original.value);
      if data.None? then Fail else Emit(data.value)
  }

  function Restoring(codec: Codec): Bytes -> Restored<Bytes> {
    record => RestoreOne(codec, record)
  }

  /** The printed original events, in order; events without one are passed over. */
  function Originals(codec: Codec, events: seq<DlqEvent>): seq<Bytes> {
    if events == [] then []
    else
      var rest := Originals(codec, events[1..]);
      if events[0].original.None? then rest
      else [Or(codec.marshalStream(events[0].original.value), [])] + rest
  }

  predicate Printable(codec: Codec, events: seq<DlqEvent>) {
    forall k :: 0 <= k < |events| && events[k].original.Some? ==> codec.marshalStream(events[k].original.value).Some?
  }

  lemma {:induction false} EmittedIsOriginals(codec: Codec, events: seq<DlqEvent>, records: seq<Bytes>)
    requires Faithful(codec) && Printable(codec, events) && Marshalled(codec, events, records)
    ensures Emitted(Restoring(codec), records) == Emission(Originals(codec, events), true)
  {
    if records != [] {
      assert codec.unmarshalDlq(records[0]) == Some(events[0]);
      EmittedIsOriginals(codec, events[1..], records[1..]);
    }
  }

  const ZEROS: seq<Byte> := [0, 0, 0, 0]

  /** What restoring a whole file emits. */
  function RestoredFrom(codec: Codec, file: Bytes): Emission<Bytes> {
    var decoded := Decode(file, START, ZEROS);
    var emitted := Emitted(Restoring(codec), decoded.records);
    Emission(emitted.out, emitted.ok && decoded.ok)
  }

  ghost predicate Marshalled(codec: Codec, events: seq<DlqEvent>, records: seq<Bytes>) {
    |events| == |records| && forall k :: 0 <= k < |records| ==> codec.marshalDlq(events[k]) == Some(records[k])
  }

  // ------------------------------------------------------------------ the restore loop

  lemma DecodeStep(file: Bytes, r: Reader, lengthBuf: seq<Byte>)
    requires Sane(file, r) && |lengthBuf| == 4
    ensures var here, round := Decode(file, r, lengthBuf), ReadRecord(file, r, lengthBuf);
            match round
            case End => here == Result([], true)
            case Broken => here == Result([], false)
            case Next(data, r', buf) =>
              var rest := Decode(file, r', buf);
              here.ok == rest.ok && here.records != [] && here.records[0] == data && here.records[1..] == rest.records
  {
  }

  /** The emitted events are in the target, or queued for it. */
  ghost predicate Sent(start: seq<Bytes>, target: seq<Bytes>, pipe: seq<Bytes>, out: seq<Bytes>) {
    start <= target && target + pipe == start + out
  }

  lemma SentIsPrefix(start: seq<Bytes>, target: seq<Bytes>, pipe: seq<Bytes>, out: seq<Bytes>, all: seq<Bytes>)
    requires Sent(start, target, pipe, out) && out <= all
    ensures start <= target <= start + all && (pipe == [] ==> target == start + out)
  {
    assert target + pipe <= start + all;
    assert target == (target + pipe)[..|target|] == (start + all)[..|target|];
  }

  lemma WithinMore(start: seq<Bytes>, target: seq<Bytes>, out: seq<Bytes>, all: seq<Bytes>)
    requires target <= start + out && out <= all
    ensures target <= start + all
  {
    assert (start + all)[..|start + out|] == start + out;
  }

  /** Where the loop stands in the file. */
  ghost predicate Reading(codec: Codec, file: Bytes, r: Reader, lengthBuf: seq<Byte>, out: seq<Bytes>) {
    && Sane(file, r) && |lengthBuf| == 4
    && Decode(file, r, lengthBuf).ok == Decode(file, START, ZEROS).ok
    && Underway(Restoring(codec), Decode(file, START, ZEROS).records, Decode(file, r, lengthBuf).records, out)
  }

  lemma ReadingStarts(codec: Codec, file: Bytes)
    ensures Reading(codec, file, START, ZEROS, [])
  {
    assert Decode(file, START, ZEROS).records[..0] == [];
  }

  lemma ReadingIsPrefix(codec: Codec, file: Bytes, r: Reader, lengthBuf: seq<Byte>, out: seq<Bytes>)
    requires Reading(codec, file, r, lengthBuf, out)
    ensures out <= RestoredFrom(codec, file).out
    ensures ReadRecord(file, r, lengthBuf).End? ==> RestoredFrom(codec, file) == Emission(out, true)
  {
    DecodeStep(file, r, lengthBuf);
    UnderwayIsPrefix(Restoring(codec), Decode(file, START, ZEROS).records, Decode(file, r, lengthBuf).records, out);
  }

  lemma ReadingNext(codec: Codec, file: Bytes, r: Reader, lengthBuf: seq<Byte>, out: seq<Bytes>)
    requires Reading(codec, file, r, lengthBuf, out) && ReadRecord(file, r, lengthBuf).Next?
    ensures var round := ReadRecord(file, r, lengthBuf);
            var one := RestoreOne(codec, round.data);
            && (one.Skip? ==> Reading(codec, file, round.r, round.lengthBuf, out))
            && (one.Emit? ==> Reading(codec, file, round.r, round.lengthBuf, out + [one.data]))
  {
    DecodeStep(file, r, lengthBuf);
    UnderwayNext(Restoring(codec), Decode(file, START, ZEROS).records, Decode(file, r, lengthBuf).records, out);
  }

  /** A record that cannot be read or restored makes the whole fail. */
  lemma ReadingFails(codec: Codec, file: Bytes, r: Reader, lengthBuf: seq<Byte>, out: seq<Bytes>)
    requires Reading(codec, file, r, lengthBuf, out)
    requires var round := ReadRecord(file, r, lengthBuf);
             round.Broken? || (round.Next? && RestoreOne(codec, round.data).Fail?)
    ensures !RestoredFrom(codec, file).ok
  {
    DecodeStep(file, r, lengthBuf);
    if ReadRecord(file, r, lengthBuf).Next? {
      UnderwayFails(Restoring(codec), Decode(file, START, ZEROS).records, Decode(file, r, lengthBuf).records, out);
    }
  }

  class Restorer {
    const codec: Codec
    /** The stream the events go to. */
    var target: seq<Bytes>

    constructor (codec: Codec, target: seq<Bytes>)
      ensures this.codec == codec && this.target == target
    {
      this.codec, this.target := codec, target;
    }

    /** A failing pipeline has carried out a first part of its commands. */
    method Exec(pipe: seq<Bytes>) returns (ok: bool, ghost trouble: bool)
      modifies this
      ensures ok ==> target == old(target) + pipe
      ensures old(target) <= target <= old(target) + pipe
      ensures ok <==> !trouble
    {
      ok := Happens();
      trouble := !ok;
      var n := *;
      if ok {
        target := target + pipe;
      } else if 0 <= n <= |pipe| {
        target := target + pipe[..n];
      }
    }

    /** Queue one event; a full queue is executed. */
    method Queue(data: Bytes, pipe: seq<Bytes>, batchSize: int, ghost start: seq<Bytes>, ghost out: seq<Bytes>)
      returns (ok: bool, pipe': seq<Bytes>, ghost trouble: bool)
      requires Sent(start, target, pipe, out)
      modifies this
      ensures ok ==> Sent(start, target, pipe', out + [data])
      ensures start <= target <= start + (out + [data])
      ensures ok <==> !trouble
      ensures |pipe'| < batchSize || !ok || batchSize <= 0
    {
      ok, pipe', trouble := true, pipe + [data], false;
      AppendAssociates(target, pipe, [data]);
      AppendAssociates(start, out, [data]);
      assert target + pipe' == start + (out + [data]);
      if |pipe'| >= batchSize {
        ok, trouble := Exec(pipe');
        pipe' := [];
      }
    }

    /** One round that neither ends nor fails, if `more`. */
    method RestoreRecord(file: Bytes, r: Reader, lengthBuf: seq<Byte>, pipe: seq<Bytes>, batchSize: int,
                         ghost start: seq<Bytes>, ghost out: seq<Bytes>)
      returns (ok: bool, more: bool, r': Reader, lengthBuf': seq<Byte>, pipe': seq<Bytes>, ghost out': seq<Bytes>,
               ghost trouble: bool)
      requires Reading(codec, file, r, lengthBuf, out) && Sent(start, target, pipe, out)
      modifies this
      ensures ok ==> Reading(codec, file, r', lengthBuf', out') && Sent(start, target, pipe', out')
      ensures ok && more ==> r'.pos > r.pos
      ensures ok && !more ==> RestoredFrom(codec, file) == Emission(out', true)
      ensures start <= target <= start + RestoredFrom(codec, file).out
      ensures !ok && !trouble ==> !RestoredFrom(codec, file).ok
    {
      ok, more, r', lengthBuf', pipe', out' := false, true, r, lengthBuf, pipe, out;
      ReadingIsPrefix(codec, file, r, lengthBuf, out);
      SentIsPrefix(start, target, pipe, out, RestoredFrom(codec, file).out);
      var cancelled := Happens();
      trouble := cancelled;
      var round := ReadRecord(file, r, lengthBuf);
      if round.End? && !cancelled {
        ok, more := true, false;
      } else if round.Next? && !cancelled {
        r', lengthBuf' := round.r, round.lengthBuf;
        ok, pipe', out', trouble := RestoreData(file, r, lengthBuf, round, pipe, batchSize, start, out);
      } else if !cancelled {
        ReadingFails(codec, file, r, lengthBuf, out);
      }
    }

    /** A record that was read: its event is queued, or there is none, or the run fails. */
    method RestoreData(ghost file: Bytes, ghost r: Reader, ghost lengthBuf: seq<Byte>, round: Round, pipe: seq<Bytes>,
                       batchSize: int, ghost start: seq<Bytes>, ghost out: seq<Bytes>)
      returns (ok: bool, pipe': seq<Bytes>, ghost out': seq<Bytes>, ghost trouble: bool)
      requires Reading(codec, file, r, lengthBuf, out) && Sent(start, target, pipe, out)
      requires round.Next? && ReadRecord(file, r, lengthBuf) == round
      requires target <= start + RestoredFrom(codec, file).out
      modifies this
      ensures ok ==> Reading(codec, file, round.r, round.lengthBuf, out') && Sent(start, target, pipe', out')
      ensures start <= target <= start + RestoredFrom(codec, file).out
      ensures !ok && !trouble ==> !RestoredFrom(codec, file).ok
    {
      ok, pipe', out', trouble := true, pipe, out, false;
      ReadingNext(codec, file, r, lengthBuf, out);
      match RestoreOne(codec, round.data)
      case Skip =>
      case Fail =>
        ok := false;
        ReadingFails(codec, file, r, lengthBuf, out);
      case Emit(event) =>
        out' := out + [event];
        ReadingIsPrefix(codec, file, round.r, round.lengthBuf, out');
        ok, pipe', trouble := Queue(event, pipe, batchSize, start, out);
        WithinMore(start, target, out', RestoredFrom(codec, file).out);
    }

    /** Emits exactly the original events of the file, whatever the batch size; a run that fails has
        emitted a first part of them. It fails only if something was in the way, or the file cannot be
        read or one of its records restored. */
    method RestoreDLQ(file: Bytes, batchSize: int) returns (ok: bool, ghost trouble: bool)
      modifies this
      ensures ok ==> RestoredFrom(codec, file).ok && target == old(target) + RestoredFrom(codec, file).out
      ensures old(target) <= target <= old(target) + RestoredFrom(codec, file).out
      ensures RestoredFrom(codec, file).ok && !trouble ==> ok
    {
      var r, lengthBuf, pipe, more := START, ZEROS, [], true;
      ghost var start, out: seq<Bytes> := target, [];
      ReadingStarts(codec, file);
      ok, trouble := true, false;
      while ok && more
        invariant ok ==> Reading(codec, file, r, lengthBuf, out) && Sent(start, target, pipe, out)
        invariant ok && !more ==> RestoredFrom(codec, file) == Emission(out, true)
        invariant start <= target <= start + RestoredFrom(codec, file).out
        invariant !ok && !trouble ==> !RestoredFrom(codec, file).ok
        decreases ok, more, if ok then |file| - r.pos else 0
      {
        ok, more, r, lengthBuf, pipe, out, trouble := RestoreRecord(file, r, lengthBuf, pipe, batchSize, start, out);
      }
      if ok {
        SentIsPrefix(start, target, pipe, out, out);
        if |pipe| > 0 {
          ok, trouble := Exec(pipe);
        }
      }
    }
  }
}
