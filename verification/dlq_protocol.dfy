/** Archiving as steps: a buffered writer between the records and the file, deletion from the stream
    batch by batch, a flush on the way out, and a process that can die between any two of them. */
module DlqProtocol {
  import opened Options
  import opened DlqFrames

  type Bytes = seq<Byte>

  /** `upTo` is the end of the batch; `flushed` is whether the last flush worked. */
  datatype PC =
    | Batching
    | Putting(upTo: nat)
    | Deleting(upTo: nat)
    | Flushing(ok: bool)
    | Returned(ok: bool, flushed: bool)
    | Dead

  /** What the file holds, and what is still in the writer's memory. */
  datatype Output = Output(file: Bytes, buffer: Bytes)

  /** `records` are the ones put into the writer whole, `torn` the part of one whose write failed;
      the first `deleted` messages are gone from the stream. */
  datatype State = State(pc: PC, out: Output, records: seq<Bytes>, torn: Bytes, deleted: nat)

  function Init(before: Bytes): State {
    State(Batching, Output(before, []), [], [], 0)
  }

  datatype Action =
    | ReadBatch(end: nat) | ReadNothing | ReadFails
    | Put(record: Bytes) | PutFails(record: Bytes, cut: nat)
    | DeleteDone | DeleteFails(applied: bool)
    | Spill(count: nat)
    | Flush(count: nat)
    | Crash

  predicate Live(s: State) {
    !s.pc.Returned? && !s.pc.Dead?
  }

  /** `total` is the number of messages the stream began with. */
  predicate Enabled(total: nat, s: State, a: Action) {
    match a
    case ReadBatch(end) => s.pc == Batching && s.deleted < end <= total
    case ReadNothing => s.pc == Batching && s.deleted == total
    case ReadFails => s.pc == Batching
    case Put(_) => s.pc.Putting?
    case PutFails(record, cut) => s.pc.Putting? && cut < |Frame(record)|
    case DeleteDone => s.pc.Deleting?
    case DeleteFails(_) => s.pc.Deleting?
    case Spill(count) => Live(s) && count <= |s.out.buffer|
    case Flush(count) => s.pc.Flushing? && count <= |s.out.buffer|
    case Crash => Live(s)
  }

  function Moved(out: Output, count: nat): Output
    requires count <= |out.buffer|
  {
    Output(out.file + out.buffer[..count], out.buffer[count..])
  }

  function Written(out: Output, data: Bytes): Output {
    out.(buffer := out.buffer + data)
  }

  /** The memory goes when the process does. */
  function Apply(total: nat, s: State, a: Action): State
    requires Enabled(total, s, a)
  {
    match a
    case ReadBatch(end) => s.(pc := Putting(end))
    case ReadNothing => s.(pc := Flushing(true))
    case ReadFails => s.(pc := Flushing(false))
    case Put(record) =>
      s.(out := Written(s.out, Frame(record)), records := s.records + [record],
         pc := if |s.records| + 1 < s.pc.upTo then s.pc else Deleting(s.pc.upTo))
    case PutFails(record, cut) =>
      s.(out := Written(s.out, Frame(record)[..cut]), torn := Frame(record)[..cut], pc := Flushing(false))
    case DeleteDone => s.(deleted := s.pc.upTo, pc := Batching)
    case DeleteFails(applied) => s.(deleted := if applied then s.pc.upTo else s.deleted, pc := Flushing(false))
    case Spill(count) => s.(out := Moved(s.out, count))
    case Flush(count) =>
      s.(out := Moved(s.out, count).(buffer := []), pc := Returned(s.pc.ok, count == |s.out.buffer|))
    case Crash => s.(out := s.out.(buffer := []), pc := Dead)
  }

  function After(total: nat, before: Bytes, run: seq<Action>): Option<State> {
    if run == [] then Some(Init(before))
    else
      var front := After(total, before, run[..|run| - 1]);
      if front.Some? && Enabled(total, front.value, run[|run| - 1])
      then Some(Apply(total, front.value, run[|run| - 1])) else None
  }

  lemma AfterStep(total: nat, before: Bytes, run: seq<Action>, a: Action)
    requires After(total, before, run).Some? && Enabled(total, After(total, before, run).value, a)
    ensures After(total, before, run + [a]) == Some(Apply(total, After(total, before, run).value, a))
  {
    assert (run + [a])[..|run|] == run;
  }

  // ------------------------------------------------------------------ the invariant

  /** All that was ever given to the writer, behind what the file held before. */
  function Given(before: Bytes, s: State): Bytes {
    before + Frames(s.records) + s.torn
  }

  /** While the process lives nothing is lost; afterwards the file is a first part of what was given. */
  ghost predicate Ordered(before: Bytes, s: State) {
    && before <= s.out.file <= Given(before, s)
    && (Live(s) ==> s.out.file + s.out.buffer == Given(before, s))
    && (s.pc.Returned? ==> (s.pc.flushed <==> s.out.file == Given(before, s)))
  }

  /** Deletion follows the records, a whole batch at a time. */
  ghost predicate Batched(total: nat, s: State) {
    && s.deleted <= |s.records| <= total
    && (s.pc == Batching ==> s.deleted == |s.records|)
    && (s.pc.Putting? ==> s.deleted <= |s.records| < s.pc.upTo <= total)
    && (s.pc.Deleting? ==> |s.records| == s.pc.upTo)
    && (s.pc in {Flushing(true), Returned(true, true), Returned(true, false)} ==> s.deleted == |s.records| == total)
    && (s.torn != [] ==> s.pc in {Dead, Flushing(false), Returned(false, true), Returned(false, false)})
  }

  lemma {:induction false} BatchedStep(total: nat, s: State, a: Action)
    requires Enabled(total, s, a) && Batched(total, s)
    ensures Batched(total, Apply(total, s, a))
  {
  }

  lemma FramesSnoc(rs: seq<Bytes>, record: Bytes)
    ensures Frames(rs + [record]) == Frames(rs) + Frame(record)
  {
    FramesAppend(rs, [record]);
    assert Frames([record]) == Frame(record);
  }

  lemma MovedKeeps(out: Output, count: nat)
    requires count <= |out.buffer|
    ensures Moved(out, count).file + Moved(out, count).buffer == out.file + out.buffer
    ensures out.file <= Moved(out, count).file <= out.file + out.buffer
    ensures Moved(out, count).file == out.file + out.buffer <==> count == |out.buffer|
  {
    assert out.buffer == out.buffer[..count] + out.buffer[count..];
  }

  lemma WrittenKeeps(before: Bytes, out: Output, given: Bytes, data: Bytes)
    requires before <= out.file && out.file + out.buffer == given
    ensures var out' := Written(out, data);
            out'.file == out.file && out'.file + out'.buffer == given + data && out'.file <= given + data
  {
    assert out.file + (out.buffer + data) == out.file + out.buffer + data;
  }

  lemma PutKeepsOrder(total: nat, before: Bytes, s: State, record: Bytes)
    requires s.pc.Putting? && Ordered(before, s) && s.torn == []
    ensures Ordered(before, Apply(total, s, Put(record)))
  {
    var t := Apply(total, s, Put(record));
    FramesSnoc(s.records, record);
    WrittenKeeps(before, s.out, Given(before, s), Frame(record));
    assert Given(before, t) == Given(before, s) + Frame(record);
  }

  lemma PutFailsKeepsOrder(total: nat, before: Bytes, s: State, record: Bytes, cut: nat)
    requires s.pc.Putting? && cut < |Frame(record)| && Ordered(before, s) && s.torn == []
    ensures Ordered(before, Apply(total, s, PutFails(record, cut)))
  {
    WrittenKeeps(before, s.out, Given(before, s), Frame(record)[..cut]);
    assert before + Frames(s.records) + [] == before + Frames(s.records);
  }

  lemma {:induction false} OrderedStep(total: nat, before: Bytes, s: State, a: Action)
    requires Enabled(total, s, a) && Ordered(before, s) && Batched(total, s)
    ensures Ordered(before, Apply(total, s, a))
  {
    match a
    case Put(record) => PutKeepsOrder(total, before, s, record);
    case PutFails(record, cut) => PutFailsKeepsOrder(total, before, s, record, cut);
    case Spill(count) => MovedKeeps(s.out, count);
    case Flush(count) => MovedKeeps(s.out, count);
    case _ =>
  }

  lemma {:induction false} RunInvariant(total: nat, before: Bytes, run: seq<Action>)
    requires After(total, before, run).Some?
    ensures Ordered(before, After(total, before, run).value) && Batched(total, After(total, before, run).value)
  {
    if run == [] {
      assert before + Frames([]) + [] == before;
    } else {
      var front := run[..|run| - 1];
      RunInvariant(total, before, front);
      OrderedStep(total, before, After(total, before, front).value, run[|run| - 1]);
      BatchedStep(total, After(total, before, front).value, run[|run| - 1]);
    }
  }

  // ------------------------------------------------------------------ what is kept, and when

  /** The message's record lies whole in the file, behind those before it. */
  predicate InFile(before: Bytes, s: State, i: nat) {
    i < |s.records| && before + Frames(s.records[..i + 1]) <= s.out.file
  }

  predicate InStream(total: nat, s: State, i: nat) {
    s.deleted <= i < total
  }

  /** Every message can still be found: in the file or in the stream. */
  ghost predicate Kept(total: nat, before: Bytes, s: State) {
    forall i :: 0 <= i < total ==> InFile(before, s, i) || InStream(total, s, i)
  }

  /** How far the file must reach for the deleted messages to be in it. */
  function DeletedEnd(before: Bytes, s: State): nat
    requires s.deleted <= |s.records|
  {
    |before| + |Frames(s.records[..s.deleted])|
  }

  lemma {:induction false} FramesFront(rs: seq<Bytes>, k: nat)
    requires k <= |rs|
    ensures Frames(rs) == Frames(rs[..k]) + Frames(rs[k..])
  {
    FramesSplit(rs[..k], rs[k..], rs);
  }

  lemma {:induction false} FramesSplit(a: seq<Bytes>, b: seq<Bytes>, rs: seq<Bytes>)
    requires a + b == rs
    ensures Frames(rs) == Frames(a) + Frames(b)
  {
    FramesAppend(a, b);
  }

  /** In the ordered output, the first `k` records lie in the file if it reaches to their end. */
  lemma ReachesIff(before: Bytes, s: State, k: nat)
    requires Ordered(before, s) && k <= |s.records|
    ensures before + Frames(s.records[..k]) <= s.out.file <==> |before| + |Frames(s.records[..k])| <= |s.out.file|
  {
    FramesFront(s.records, k);
    assert Given(before, s) == (before + Frames(s.records[..k])) + (Frames(s.records[k..]) + s.torn);
    assert before + Frames(s.records[..k]) <= Given(before, s);
  }

  lemma {:induction false} EarlierReaches(rs: seq<Bytes>, j: nat, k: nat)
    requires j <= k <= |rs|
    ensures |Frames(rs[..j])| <= |Frames(rs[..k])|
  {
    FramesFront(rs[..k], j);
    assert rs[..k][..j] == rs[..j];
  }

  /** In every state of every run: each message is in the file or the stream exactly when the file
      reaches to the end of the last deleted record. */
  lemma KeptIff(total: nat, before: Bytes, run: seq<Action>)
    requires After(total, before, run).Some?
    ensures var s := After(total, before, run).value;
            s.deleted <= |s.records| && (Kept(total, before, s) <==> DeletedEnd(before, s) <= |s.out.file|)
  {
    RunInvariant(total, before, run);
    var s := After(total, before, run).value;
    if s.deleted == 0 {
      assert Frames(s.records[..0]) == [];
    } else {
      ReachesIff(before, s, s.deleted);
      assert InFile(before, s, s.deleted - 1) <==> before + Frames(s.records[..s.deleted]) <= s.out.file;
    }
    if DeletedEnd(before, s) <= |s.out.file| {
      forall i | 0 <= i < s.deleted ensures InFile(before, s, i) {
        EarlierReaches(s.records, i + 1, s.deleted);
        ReachesIff(before, s, i + 1);
      }
    }
  }

  /** A process that dies loses a message exactly when its memory reaches back into deleted records. */
  lemma CrashLosesIff(total: nat, before: Bytes, run: seq<Action>)
    requires After(total, before, run).Some? && Live(After(total, before, run).value)
    ensures var s := After(total, before, run).value;
            && s.deleted <= |s.records|
            && After(total, before, run + [Crash]).Some?
            && (Kept(total, before, After(total, before, run + [Crash]).value)
                <==> |s.out.buffer| <= |Frames(s.records[s.deleted..])| + |s.torn|)
  {
    var s := After(total, before, run).value;
    AfterStep(total, before, run, Crash);
    KeptIff(total, before, run + [Crash]);
    RunInvariant(total, before, run);
    FramesFront(s.records, s.deleted);
    assert |s.out.file| + |s.out.buffer| == |Given(before, s)|;
  }

  /** A run that returns success has emptied the stream; it has kept every message, and the file is
      complete, exactly when the last flush worked. The result does not say whether it did. */
  lemma SuccessKeepsIff(total: nat, before: Bytes, run: seq<Action>)
    requires After(total, before, run).Some?
    requires After(total, before, run).value.pc.Returned? && After(total, before, run).value.pc.ok
    ensures var s := After(total, before, run).value;
            && s.deleted == |s.records| == total
            && (Kept(total, before, s) <==> s.pc.flushed)
            && (s.out.file == before + Frames(s.records) <==> s.pc.flushed)
  {
    RunInvariant(total, before, run);
    KeptIff(total, before, run);
    var s := After(total, before, run).value;
    assert s.pc == Returned(true, s.pc.flushed) && s.torn == [];
    assert s.records[..s.deleted] == s.records;
    assert Given(before, s) == before + Frames(s.records);
  }

  lemma Extend(total: nat, before: Bytes, run: seq<Action>, s: State, a: Action) returns (more: seq<Action>, s': State)
    requires After(total, before, run) == Some(s) && Enabled(total, s, a)
    ensures more == run + [a] && s' == Apply(total, s, a) && After(total, before, more) == Some(s')
  {
    AfterStep(total, before, run, a);
    more, s' := run + [a], Apply(total, s, a);
  }

  /** One message, archived and deleted while its record is still in memory. */
  lemma DeletedWhileBuffered(before: Bytes, record: Bytes) returns (run: seq<Action>, s: State)
    ensures After(1, before, run) == Some(s) && s.pc == Batching && s.deleted == 1
    ensures s.out == Output(before, Frame(record)) && s.records == [record]
  {
    s := Init(before);
    run, s := Extend(1, before, [], s, ReadBatch(1));
    run, s := Extend(1, before, run, s, Put(record));
    run, s := Extend(1, before, run, s, DeleteDone);
    assert [] + Frame(record) == Frame(record);
  }

  /** If the process dies there, the message is in neither place. */
  lemma CrashLosesAMessage(before: Bytes, record: Bytes) returns (run: seq<Action>)
    ensures After(1, before, run).Some?
    ensures var s := After(1, before, run).value; s.pc == Dead && !InFile(before, s, 0) && !InStream(1, s, 0)
  {
    var s;
    run, s := DeletedWhileBuffered(before, record);
    run, s := Extend(1, before, run, s, Crash);
    assert [record][..1] == [record] && Frames([record]) == Frame(record) + [];
  }

  /** And if the last flush fails, so it is, although success is returned. */
  lemma SuccessLosesAMessage(before: Bytes, record: Bytes) returns (run: seq<Action>)
    ensures After(1, before, run).Some?
    ensures var s := After(1, before, run).value;
            s.pc == Returned(true, false) && !InFile(before, s, 0) && !InStream(1, s, 0)
  {
    var s;
    run, s := DeletedWhileBuffered(before, record);
    run, s := Extend(1, before, run, s, ReadNothing);
    run, s := Extend(1, before, run, s, Flush(0));
    assert [record][..1] == [record] && Frames([record]) == Frame(record) + [];
    assert s.out.file == before + [];
  }
}
