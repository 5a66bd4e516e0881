/** Archive runs one after the other into one file, interrupted ones among them, and what restoring
    the file gives. */
module DlqHistory {
  import opened Options
  import opened DlqFrames
  import opened DlqMessages
  import opened DlqArchive
  import opened DlqProtocol
  import opened DlqRestore

  /** A run of the tool on a stream of `total` messages. */
  datatype Session = Session(total: nat, run: seq<Action>)

  /** How a session ends that finds `before` in the file; it has returned, or its process is dead. */
  function EndOf(session: Session, before: Bytes): Option<State> {
    var s := After(session.total, before, session.run);
    if s.Some? && !Live(s.value) then s else None
  }

  /** The file after a number of sessions, each of which appends to what it finds. */
  function FileAfter(history: seq<Session>): Option<Bytes> {
    if history == [] then Some([])
    else
      var before := FileAfter(history[..|history| - 1]);
      if before.None? || EndOf(history[|history| - 1], before.value).None? then None
      else Some(EndOf(history[|history| - 1], before.value).value.out.file)
  }

  /** What the last session found, and how it ended. */
  function LastFound(history: seq<Session>): Bytes
    requires history != [] && FileAfter(history).Some?
  {
    FileAfter(history[..|history| - 1]).value
  }

  function LastEnd(history: seq<Session>): State
    requires history != [] && FileAfter(history).Some?
  {
    EndOf(history[|history| - 1], LastFound(history)).value
  }

  // ------------------------------------------------------------------ one session

  /** How many of the records fit. */
  function Fits(records: seq<Bytes>, room: int): (n: nat)
    ensures n <= |records|
  {
    if records == [] || |Frame(records[0])| > room then 0 else 1 + Fits(records[1..], room - |Frame(records[0])|)
  }

  lemma {:induction false} FitsIff(records: seq<Bytes>, room: int, k: nat)
    requires k <= |records| && room >= 0
    ensures |Frames(records[..k])| <= room <==> k <= Fits(records, room)
  {
    if k > 0 {
      assert records[..k][0] == records[0] && records[..k][1..] == records[1..][..k - 1];
      if |Frame(records[0])| <= room {
        FitsIff(records[1..], room - |Frame(records[0])|, k - 1);
      }
    }
  }

  /** The records of a session that lie whole in the file. */
  function Whole(before: Bytes, s: State): seq<Bytes> {
    s.records[..Fits(s.records, |s.out.file| - |before|)]
  }

  /** The file ends where a record of the session ends, or where the session found it. */
  ghost predicate AtBoundary(before: Bytes, s: State) {
    exists k :: 0 <= k <= |s.records| && s.out.file == before + Frames(s.records[..k])
  }

  lemma WholeIsInFile(before: Bytes, s: State, i: nat)
    requires Ordered(before, s)
    ensures InFile(before, s, i) <==> i < |Whole(before, s)|
  {
    if i < |s.records| {
      ReachesIff(before, s, i + 1);
      FitsIff(s.records, |s.out.file| - |before|, i + 1);
    }
  }

  /** Behind what was found come the whole records; nothing else does exactly at a boundary. */
  lemma WholeReaches(before: Bytes, s: State)
    requires Ordered(before, s)
    ensures before + Frames(Whole(before, s)) <= s.out.file
    ensures AtBoundary(before, s) <==> |s.out.file| == |before| + |Frames(Whole(before, s))|
  {
    var n := |Whole(before, s)|;
    FitsIff(s.records, |s.out.file| - |before|, n);
    ReachesIff(before, s, n);
    if AtBoundary(before, s) {
      var k :| 0 <= k <= |s.records| && s.out.file == before + Frames(s.records[..k]);
      FitsIff(s.records, |s.out.file| - |before|, k);
      EarlierReaches(s.records, k, n);
    }
  }

  /** A session whose last flush worked ended at a boundary exactly when no write of it was cut short;
      then all its records lie whole in the file. */
  lemma FlushedAtBoundaryIff(before: Bytes, s: State)
    requires Ordered(before, s) && s.pc.Returned? && s.pc.flushed
    ensures Whole(before, s) == s.records
    ensures AtBoundary(before, s) <==> s.torn == []
  {
    var n := |s.records|;
    assert s.records[..n] == s.records && s.out.file == Given(before, s);
    FitsIff(s.records, |s.out.file| - |before|, n);
    WholeReaches(before, s);
  }

  // ------------------------------------------------------------------ all sessions

  /** The records that lie whole in the file, of all sessions. */
  function AllWhole(history: seq<Session>): seq<Bytes>
    requires FileAfter(history).Some?
  {
    if history == [] then []
    else AllWhole(history[..|history| - 1]) + Whole(LastFound(history), LastEnd(history))
  }

  /** Every session left the file at the end of a record. */
  ghost predicate Clean(history: seq<Session>)
    requires FileAfter(history).Some?
  {
    history != [] ==> Clean(history[..|history| - 1]) && AtBoundary(LastFound(history), LastEnd(history))
  }

  lemma LastEndOrdered(history: seq<Session>)
    requires history != [] && FileAfter(history).Some?
    ensures Ordered(LastFound(history), LastEnd(history)) && LastEnd(history).out.file == FileAfter(history).value
  {
    var last := history[|history| - 1];
    RunInvariant(last.total, LastFound(history), last.run);
  }

  /** Nothing but whole records is in the file exactly if the history is clean. */
  lemma {:induction false} CleanIsFrames(history: seq<Session>)
    requires FileAfter(history).Some?
    ensures |FileAfter(history).value| >= |Frames(AllWhole(history))|
    ensures Clean(history) <==> |FileAfter(history).value| == |Frames(AllWhole(history))|
    ensures Clean(history) ==> FileAfter(history).value == Frames(AllWhole(history))
  {
    if history != [] {
      var front, before, s := history[..|history| - 1], LastFound(history), LastEnd(history);
      CleanIsFrames(front);
      LastEndOrdered(history);
      WholeReaches(before, s);
      FramesAppend(AllWhole(front), Whole(before, s));
    }
  }

  /** Whatever happened to the sessions: restoring the file gives back the records that lie whole in it,
      of all sessions, exactly when every session left it at the end of a record, all lengths fit, and
      every length prefix is read in one piece. */
  lemma RestoresIffClean(history: seq<Session>, lengthBuf: seq<Byte>)
    requires FileAfter(history).Some? && |lengthBuf| == 4
    ensures var file, records := FileAfter(history).value, AllWhole(history);
            Decode(file, START, lengthBuf) == Result(records, true)
            <==> Clean(history) && ShortEnough(records) && PrefixesWhole(Frames(records), START, records)
  {
    var file, records := FileAfter(history).value, AllWhole(history);
    CleanIsFrames(history);
    if Decode(file, START, lengthBuf) == Result(records, true) {
      DecodeConsumes(file, START, lengthBuf);
      FramesLength(records);
    }
    if Clean(history) {
      RestoreIff(records, lengthBuf);
    }
  }

  ghost predicate AllSucceeded(history: seq<Session>)
    requires FileAfter(history).Some?
  {
    history != [] ==> AllSucceeded(history[..|history| - 1]) && LastEnd(history).pc == Returned(true, true)
  }

  function Messages(history: seq<Session>): nat {
    if history == [] then 0 else Messages(history[..|history| - 1]) + history[|history| - 1].total
  }

  lemma SucceededIsWhole(history: seq<Session>)
    requires history != [] && FileAfter(history).Some? && LastEnd(history).pc == Returned(true, true)
    ensures var s := LastEnd(history);
            && Whole(LastFound(history), s) == s.records && |s.records| == history[|history| - 1].total
            && AtBoundary(LastFound(history), s)
  {
    var last := history[|history| - 1];
    LastEndOrdered(history);
    RunInvariant(last.total, LastFound(history), last.run);
    FlushedAtBoundaryIff(LastFound(history), LastEnd(history));
  }

  /** A history in which every run succeeded and every flush worked is clean, and has a record of every
      message whole in the file. */
  lemma {:induction false} SuccessIsClean(history: seq<Session>)
    requires FileAfter(history).Some? && AllSucceeded(history)
    ensures Clean(history) && |AllWhole(history)| == Messages(history)
  {
    if history != [] {
      SuccessIsClean(history[..|history| - 1]);
      SucceededIsWhole(history);
    }
  }

  /** After a run that succeeded, and whose flush worked, its messages and all records before them are
      restored exactly when the file was clean before it, all lengths fit and all prefixes are whole. */
  lemma SuccessRestoresIff(history: seq<Session>, lengthBuf: seq<Byte>)
    requires history != [] && FileAfter(history).Some? && |lengthBuf| == 4
    requires LastEnd(history).pc == Returned(true, true)
    ensures var front := history[..|history| - 1];
            var records := AllWhole(front) + LastEnd(history).records;
            Decode(FileAfter(history).value, START, lengthBuf) == Result(records, true)
            <==> Clean(front) && ShortEnough(records) && PrefixesWhole(Frames(records), START, records)
  {
    SucceededIsWhole(history);
    RestoresIffClean(history, lengthBuf);
  }

  // ------------------------------------------------------------------ a history that is not clean

  /** A run that dies when the first bytes of its first record have reached the file. */
  lemma DiesInsideAFrame(before: Bytes, record: Bytes, cut: nat) returns (session: Session)
    requires cut < |Frame(record)|
    ensures EndOf(session, before).Some?
    ensures var s := EndOf(session, before).value;
            s.deleted == 0 && s.out.file == before + Frame(record)[..cut] && session.total == 1
  {
    var run, s := [], Init(before);
    run, s := Extend(1, before, run, s, ReadBatch(1));
    run, s := Extend(1, before, run, s, Put(record));
    assert s.out.buffer == Frame(record);
    run, s := Extend(1, before, run, s, Spill(cut));
    run, s := Extend(1, before, run, s, Crash);
    session := Session(1, run);
  }

  /** A run that archives one message, deletes it, flushes and returns success. */
  lemma SucceedsBehind(before: Bytes, record: Bytes) returns (session: Session)
    ensures EndOf(session, before).Some? && session.total == 1
    ensures var s := EndOf(session, before).value;
            s.pc == Returned(true, true) && s.deleted == 1 && s.records == [record]
            && s.out.file == before + Frame(record)
  {
    var run, s := DeletedWhileBuffered(before, record);
    run, s := Extend(1, before, run, s, ReadNothing);
    run, s := Extend(1, before, run, s, Flush(|Frame(record)|));
    session := Session(1, run);
  }

  lemma FileAfterTwo(first: Session, second: Session)
    requires EndOf(first, []).Some? && EndOf(second, EndOf(first, []).value.out.file).Some?
    ensures var history := [first, second];
            && FileAfter(history).Some? && LastFound(history) == EndOf(first, []).value.out.file
            && LastEnd(history) == EndOf(second, LastFound(history)).value
            && FileAfter(history).value == LastEnd(history).out.file
  {
    assert [first, second][..1] == [first] && [first][..0] == [];
    assert FileAfter([first]) == Some(EndOf(first, []).value.out.file);
  }

  /** Two bytes of a length, then a record of some hundred bytes: an empty record is read ... */
  lemma TornPrefix(file: Bytes, n: Byte, record: Bytes, lengthBuf: seq<Byte>) returns (r: Reader)
    requires file == [0, 0, 0, 0, 0, n] + record && 2 <= |record| < 256 && |lengthBuf| == 4
    ensures r == Reader(4, |file| - 4)
    ensures ReadRecord(file, START, lengthBuf) == Next([], r, [0, 0, 0, 0])
  {
    assert file[0..4] + lengthBuf[4..] == [0, 0, 0, 0];
    assert file[4..4] == [];
    r := FullRead(file, Advance(Filled(file, START), 4), 0);
  }

  /** ... and then a length beyond the end. */
  lemma TornLength(file: Bytes, n: Byte, record: Bytes, r: Reader)
    requires file == [0, 0, 0, 0, 0, n] + record && 2 <= |record| < 256 && n > 0 && r == Reader(4, |file| - 4)
    ensures ReadRecord(file, r, [0, 0, 0, 0]) == Broken
  {
    assert [0, 0, 0, 0][4..] == [];
    assert file[4..8] + [0, 0, 0, 0][4..] == [0, n, record[0], record[1]];
    assert FromBe32([0, n, record[0], record[1]]) >= 65536;
  }

  lemma TornBytes(record: Bytes)
    requires |record| < 256
    ensures Frame(record)[..2] + Frame(record) == [0, 0, 0, 0, 0, |record|] + record
  {
    var n := |record|;
    assert n % TWO32 == n && n / 256 == 0 && n % 256 == n;
    assert Be32(n) == [0, 0, 0, n];
    assert Frame(record)[..2] == [0, 0];
    assert [0, 0] + ([0, 0, 0, n] + record) == [0, 0, 0, 0, 0, n] + record;
  }

  lemma {:induction false} TornArchive(record: Bytes, lengthBuf: seq<Byte>)
    requires 2 <= |record| < 256 && |lengthBuf| == 4
    ensures Decode(Frame(record)[..2] + Frame(record), START, lengthBuf) == Result([[]], false)
  {
    var file := Frame(record)[..2] + Frame(record);
    TornBytes(record);
    var r := TornPrefix(file, |record|, record, lengthBuf);
    TornLength(file, |record|, record, r);
  }

  /** A run dies two bytes into the file; the next one archives its message, deletes it and succeeds. The
      message counts as kept, and restoring gives an empty record and an error. */
  lemma TornFrameHidesTheNext(record: Bytes, lengthBuf: seq<Byte>) returns (history: seq<Session>)
    requires 2 <= |record| < 256 && |lengthBuf| == 4
    ensures |history| == 2 && FileAfter(history).Some? && history[1].total == 1
    ensures var s := LastEnd(history);
            && s.pc == Returned(true, true) && s.deleted == 1 && s.records == [record]
            && Kept(1, LastFound(history), s)
    ensures Decode(FileAfter(history).value, START, lengthBuf) == Result([[]], false)
  {
    var first := DiesInsideAFrame([], record, 2);
    var before := EndOf(first, []).value.out.file;
    assert before == Frame(record)[..2];
    var second := SucceedsBehind(before, record);
    FileAfterTwo(first, second);
    KeptIff(1, before, second.run);
    SuccessKeepsIff(1, before, second.run);
    TornArchive(record, lengthBuf);
    history := [first, second];
  }

  // ------------------------------------------------------------------ events

  /** A session on a stream of messages: what each record is made from. */
  datatype Archiving = Archiving(all: seq<Message>, events: seq<DlqEvent>, run: seq<Action>)

  function Sessions(runs: seq<Archiving>): (history: seq<Session>)
    ensures |history| == |runs|
  {
    if runs == [] then []
    else Sessions(runs[..|runs| - 1]) + [Session(|runs[|runs| - 1].all|, runs[|runs| - 1].run)]
  }

  lemma SessionsFront(runs: seq<Archiving>)
    requires runs != []
    ensures var history, last := Sessions(runs), runs[|runs| - 1];
            && history[..|history| - 1] == Sessions(runs[..|runs| - 1])
            && history[|history| - 1] == Session(|last.all|, last.run)
  {
  }

  /** Each record was made from its message. */
  ghost predicate MadeFrom(codec: Codec, run: Archiving, s: State) {
    |s.records| <= |run.all| && RecordsOf(codec, run.all[..|s.records|], run.events, s.records)
  }

  /** The object that archives is such a session, once it is through. */
  lemma ObjectIsSession(letters: DeadLetters)
    requires letters.Valid() && !Live(letters.model)
    ensures EndOf(Session(|letters.all|, letters.steps), letters.before) == Some(letters.model)
    ensures letters.model.out.file == letters.file
    ensures MadeFrom(letters.codec, Archiving(letters.all, letters.events, letters.steps), letters.model)
  {
  }

  ghost predicate AllMade(codec: Codec, runs: seq<Archiving>) {
    && FileAfter(Sessions(runs)).Some?
    && (runs != [] ==>
          AllMade(codec, runs[..|runs| - 1]) && MadeFrom(codec, runs[|runs| - 1], LastEnd(Sessions(runs))))
  }

  /** The events whose records lie whole in the file. */
  function WholeEvents(runs: seq<Archiving>): seq<DlqEvent>
    requires FileAfter(Sessions(runs)).Some?
  {
    if runs == [] then []
    else
      SessionsFront(runs);
      var history, last := Sessions(runs), runs[|runs| - 1];
      var n := |Whole(LastFound(history), LastEnd(history))|;
      WholeEvents(runs[..|runs| - 1]) + if n <= |last.events| then last.events[..n] else last.events
  }

  lemma {:induction false} WholeEventsMarshalled(codec: Codec, runs: seq<Archiving>)
    requires AllMade(codec, runs)
    ensures Marshalled(codec, WholeEvents(runs), AllWhole(Sessions(runs)))
  {
    if runs != [] {
      SessionsFront(runs);
      var history, last := Sessions(runs), runs[|runs| - 1];
      WholeEventsMarshalled(codec, runs[..|runs| - 1]);
      MadeMarshalled(codec, last, LastFound(history), LastEnd(history));
    }
  }

  lemma MadeMarshalled(codec: Codec, run: Archiving, before: Bytes, s: State)
    requires MadeFrom(codec, run, s)
    ensures |Whole(before, s)| <= |run.events|
    ensures Marshalled(codec, run.events[..|Whole(before, s)|], Whole(before, s))
  {
    forall k | 0 <= k < |s.records| ensures codec.marshalDlq(run.events[k]) == Some(s.records[k]) {
      assert RecordOf(codec, run.all[..|s.records|][k], run.events[k], s.records[k]);
    }
  }

  /** The messages whose records lie whole in the file. */
  function WholeMessages(runs: seq<Archiving>): seq<Message>
    requires FileAfter(Sessions(runs)).Some?
  {
    if runs == [] then []
    else
      SessionsFront(runs);
      var history, last := Sessions(runs), runs[|runs| - 1];
      var n := |Whole(LastFound(history), LastEnd(history))|;
      WholeMessages(runs[..|runs| - 1]) + if n <= |last.all| then last.all[..n] else last.all
  }

  /** The printed events of the messages, in order; a letter that has lost its event gives nothing. */
  ghost predicate RestoredInOrder(codec: Codec, ms: seq<Message>, out: seq<Bytes>) {
    if ms == [] then out == []
    else if HasNoEvent(codec, ms[0]) then RestoredInOrder(codec, ms[1..], out)
    else out != [] && IsRestored(codec, ms[0], out[0]) && RestoredInOrder(codec, ms[1..], out[1..])
  }

  ghost predicate IsRestored(codec: Codec, m: Message, data: Bytes) {
    exists e :: IsEventOf(codec, m, e) && codec.marshalStream(e) == Some(data)
  }

  ghost predicate AllArchivedAs(codec: Codec, ms: seq<Message>, events: seq<DlqEvent>) {
    |ms| == |events| && forall k :: 0 <= k < |ms| ==> ArchivedAs(codec, ms[k], events[k])
  }

  lemma {:induction false} OriginalsInOrder(codec: Codec, ms: seq<Message>, events: seq<DlqEvent>)
    requires AllArchivedAs(codec, ms, events) && Printable(codec, events)
    ensures RestoredInOrder(codec, ms, Originals(codec, events))
  {
    if ms != [] {
      assert ArchivedAs(codec, ms[0], events[0]);
      OriginalsInOrder(codec, ms[1..], events[1..]);
      if events[0].original.Some? {
        assert IsRestored(codec, ms[0], codec.marshalStream(events[0].original.value).value);
        assert Originals(codec, events)[1..] == Originals(codec, events[1..]);
      }
    }
  }

  lemma {:induction false} WholeEventsArchived(codec: Codec, runs: seq<Archiving>)
    requires AllMade(codec, runs)
    ensures AllArchivedAs(codec, WholeMessages(runs), WholeEvents(runs))
  {
    if runs != [] {
      SessionsFront(runs);
      var history, last := Sessions(runs), runs[|runs| - 1];
      WholeEventsArchived(codec, runs[..|runs| - 1]);
      MadeArchived(codec, last, LastFound(history), LastEnd(history));
    }
  }

  lemma MadeArchived(codec: Codec, run: Archiving, before: Bytes, s: State)
    requires MadeFrom(codec, run, s)
    ensures var n := |Whole(before, s)|;
            n <= |run.all| && n <= |run.events| && AllArchivedAs(codec, run.all[..n], run.events[..n])
  {
    forall k | 0 <= k < |s.records| ensures ArchivedAs(codec, run.all[k], run.events[k]) {
      assert RecordOf(codec, run.all[..|s.records|][k], run.events[k], s.records[k]);
    }
  }

  /** Archiving and restoring, across any number of runs into one file, each of which left it at the end
      of a record: what comes back are the printed events of the messages whose records lie whole in
      the file, in order. */
  lemma ArchiveThenRestore(codec: Codec, runs: seq<Archiving>)
    requires Faithful(codec) && AllMade(codec, runs) && Printable(codec, WholeEvents(runs))
    requires Clean(Sessions(runs))
    requires var records := AllWhole(Sessions(runs));
             ShortEnough(records) && PrefixesWhole(Frames(records), START, records)
    ensures var restored := RestoredFrom(codec, FileAfter(Sessions(runs)).value);
            restored.ok && RestoredInOrder(codec, WholeMessages(runs), restored.out)
  {
    RestoresIffClean(Sessions(runs), ZEROS);
    WholeEventsMarshalled(codec, runs);
    EmittedIsOriginals(codec, WholeEvents(runs), AllWhole(Sessions(runs)));
    WholeEventsArchived(codec, runs);
    OriginalsInOrder(codec, WholeMessages(runs), WholeEvents(runs));
  }

  // ------------------------------------------------------------------ what comes back, message by message

  /** A printed event parses to itself. */
  ghost predicate FaithfulStream(codec: Codec) {
    forall e, data :: codec.marshalStream(e) == Some(data) ==> codec.unmarshalStream(data) == Some(e)
  }

  /** A message printed from an event comes back as it was, byte by byte, unless it can be read as a
      dead-letter event. */
  lemma EventComesBack(codec: Codec, m: Message, e: StreamEvent, data: Bytes)
    requires FaithfulStream(codec) && IsRestored(codec, m, data)
    requires m.body.Binary? && codec.marshalStream(e) == Some(m.body.d) && codec.unmarshalDlq(m.body.d).None?
    ensures data == m.body.d
  {
    assert IsEventOf(codec, m, e);
    var e' :| IsEventOf(codec, m, e') && codec.marshalStream(e') == Some(data);
    EventIsUnique(codec, m, e, e');
  }

  /** A message printed from a dead-letter event comes back as the event inside. */
  lemma LetterComesBack(codec: Codec, m: Message, letter: DlqEvent, e: StreamEvent, data: Bytes)
    requires Faithful(codec) && IsRestored(codec, m, data)
    requires m.body.Binary? && codec.marshalDlq(letter) == Some(m.body.d) && letter.original == Some(e)
    ensures codec.marshalStream(e) == Some(data)
  {
    assert codec.unmarshalDlq(m.body.d) == Some(letter);
    assert IsEventOf(codec, m, e);
    var e' :| IsEventOf(codec, m, e') && codec.marshalStream(e') == Some(data);
    EventIsUnique(codec, m, e, e');
  }

  /** A message that nothing can read comes back as the payload of an event. */
  lemma UnknownComesBack(codec: Codec, m: Message, data: Bytes)
    requires FaithfulStream(codec) && IsRestored(codec, m, data)
    requires m.body.Binary? && codec.unmarshalDlq(m.body.d).None? && codec.unmarshalStream(m.body.d).None?
    ensures codec.unmarshalStream(data).Some? && codec.unmarshalStream(data).value.payload == m.body.d
  {
  }

  /** A flat message comes back with each field in its own place. */
  lemma FlatComesBack(codec: Codec, m: Message, data: Bytes)
    requires FaithfulStream(codec) && IsRestored(codec, m, data) && m.body.Flat?
    ensures codec.unmarshalStream(data).Some? && FieldsOf(codec, m.body.fields, codec.unmarshalStream(data).value)
  {
  }

  /** One archive run into a new file, then a restore of that file. If both succeed and the flush worked,
      the target has gained the printed events of all messages, in order. */
  method ArchiveAndRestore(letters: DeadLetters, archiveBatch: int, restorer: Restorer, restoreBatch: int)
    returns (ok: bool, flushed: bool, ghost trouble: bool)
    requires letters.Between(0) && letters.before == [] && restorer.codec == letters.codec
    requires Faithful(letters.codec)
    modifies letters, restorer
    ensures ok ==> letters.stream == [] && old(restorer.target) <= restorer.target
    ensures ok && flushed ==>
              var records := letters.model.records;
              |records| == |letters.all| &&
              (ShortEnough(records) && PrefixesWhole(Frames(records), START, records)
               && Printable(letters.codec, letters.events) ==>
                 RestoredInOrder(letters.codec, letters.all, restorer.target[|old(restorer.target)|..]))
    ensures AllPrintable(letters.codec, letters.all) && !trouble ==>
              flushed && (ok || !RestoredFrom(letters.codec, letters.file).ok)
  {
    ok, flushed, trouble := letters.ArchiveDLQ(archiveBatch);
    if ok {
      ghost var was := restorer.target;
      ghost var late;
      ok, late := restorer.RestoreDLQ(letters.file, restoreBatch);
      trouble := trouble || late;
      if ok && flushed {
        AllRestored(letters);
        assert restorer.target[|was|..] == RestoredFrom(letters.codec, letters.file).out;
      }
    }
  }

  lemma AllRestored(letters: DeadLetters)
    requires letters.Valid() && letters.model.pc == Returned(true, true) && letters.before == []
    requires Faithful(letters.codec)
    ensures |letters.model.records| == |letters.all|
    ensures var records := letters.model.records;
            ShortEnough(records) && PrefixesWhole(Frames(records), START, records)
            && Printable(letters.codec, letters.events) ==>
              var restored := RestoredFrom(letters.codec, letters.file);
              restored.ok && RestoredInOrder(letters.codec, letters.all, restored.out)
  {
    var codec, records, events := letters.codec, letters.model.records, letters.events;
    SuccessKeepsIff(|letters.all|, letters.before, letters.steps);
    assert letters.file == Frames(records) && letters.all[..|records|] == letters.all;
    if ShortEnough(records) && PrefixesWhole(Frames(records), START, records) && Printable(codec, events) {
      var run := Archiving(letters.all, events, letters.steps);
      assert MadeFrom(codec, run, letters.model);
      forall k | 0 <= k < |records|
        ensures ArchivedAs(codec, letters.all[k], events[k]) && codec.marshalDlq(events[k]) == Some(records[k])
      {
        assert RecordOf(codec, letters.all[..|records|][k], events[k], records[k]);
      }
      RestoreIff(records, ZEROS);
      EmittedIsOriginals(codec, events, records);
      OriginalsInOrder(codec, letters.all, events);
    }
  }
}
