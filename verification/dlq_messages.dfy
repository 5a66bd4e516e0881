/** The messages of the dead-letter stream, and the events and records they are archived as. */
module DlqMessages {
  import opened Options
  import opened DlqFrames

  type Bytes = seq<Byte>

  datatype StreamEvent = StreamEvent(
    clickId: Bytes, campaignId: Bytes, eventType: Bytes, payload: Bytes, ip: Bytes, ua: Bytes, createdAtUnix: int)

  datatype DlqEvent = DlqEvent(
    original: Option<StreamEvent>, error: Bytes, originalId: Bytes, failedAtUnix: int, workerId: Bytes, retryCount: int)

  /** Protocol buffers, UUID text, and the two error texts of recovered messages. `leftover` is what an
      attempt to parse a dead-letter event has filled in by the time it fails. */
  datatype Codec = Codec(
    marshalDlq: DlqEvent -> Option<Bytes>,
    unmarshalDlq: Bytes -> Option<DlqEvent>,
    leftover: Bytes -> DlqEvent,
    marshalStream: StreamEvent -> Option<Bytes>,
    unmarshalStream: Bytes -> Option<StreamEvent>,
    parseUuid: Bytes -> Option<Bytes>,
    recovered: Bytes,
    unknown: Bytes)

  /** A printed event parses to itself. */
  ghost predicate Faithful(codec: Codec) {
    forall e, data :: codec.marshalDlq(e) == Some(data) ==> codec.unmarshalDlq(data) == Some(e)
  }

  // ------------------------------------------------------------------ one message

  const NO_EVENT := StreamEvent([], [], [], [], [], [], 0)

  /** The flat fields of messages written before events were binary; absent ones are None. */
  datatype Fields = Fields(
    clickId: Option<Bytes>, campaignId: Option<Bytes>, eventType: Option<Bytes>, payload: Option<Bytes>,
    ip: Option<Bytes>, ua: Option<Bytes>, createdAtUnix: Option<int>,
    error: Option<Bytes>, originalId: Option<Bytes>, failedAtUnix: Option<int>, workerId: Option<Bytes>,
    retryCount: Option<int>)

  datatype Body = Binary(d: Bytes) | Flat(fields: Fields)

  /** An entry of the stream; `name` is its id as text. */
  datatype Message = Message(id: nat, name: Bytes, body: Body)

  function Or<T>(v: Option<T>, otherwise: T): T {
    if v.Some? then v.value else otherwise
  }

  function FlatEvent(codec: Codec, f: Fields): StreamEvent {
    var campaign := Or(f.campaignId, []);
    StreamEvent(Or(f.clickId, []), if f.campaignId.Some? then Or(codec.parseUuid(campaign), campaign) else [],
                Or(f.eventType, []), Or(f.payload, []), Or(f.ip, []), Or(f.ua, []), Or(f.createdAtUnix, 0))
  }

  /** The event a message is archived as: a dead-letter event, a bare event, anything else, or flat
      fields. Worker id and retry count of a failed parse are not cleared. */
  function Normalised(codec: Codec, m: Message, now: int): DlqEvent {
    match m.body
    case Binary(d) =>
      if codec.unmarshalDlq(d).Some? then codec.unmarshalDlq(d).value
      else if codec.unmarshalStream(d).Some? then
        DlqEvent(Some(codec.unmarshalStream(d).value), codec.recovered, m.name, now, codec.leftover(d).workerId,
                 codec.leftover(d).retryCount)
      else
        DlqEvent(Some(NO_EVENT.(payload := d)), codec.unknown, m.name, now, codec.leftover(d).workerId,
                 codec.leftover(d).retryCount)
    case Flat(f) =>
      DlqEvent(Some(FlatEvent(codec, f)), Or(f.error, []), Or(f.originalId, m.name), Or(f.failedAtUnix, now),
               Or(f.workerId, []), Or(f.retryCount, 0))
  }

  // ------------------------------------------------------------------ what a message stands for

  /** The fields of a flat message, each in its own place; a campaign id is parsed if it is a UUID. */
  ghost predicate FieldsOf(codec: Codec, f: Fields, e: StreamEvent) {
    && e.clickId == (match f.clickId case Some(v) => v case None => [])
    && e.eventType == (match f.eventType case Some(v) => v case None => [])
    && e.payload == (match f.payload case Some(v) => v case None => [])
    && e.ip == (match f.ip case Some(v) => v case None => [])
    && e.ua == (match f.ua case Some(v) => v case None => [])
    && e.createdAtUnix == (match f.createdAtUnix case Some(t) => t case None => 0)
    && match f.campaignId
       case None => e.campaignId == []
       case Some(id) => codec.parseUuid(id) == Some(e.campaignId) || (codec.parseUuid(id).None? && e.campaignId == id)
  }

  /** The message is a dead-letter event around `e`; or else it is the event `e` itself; or else nobody
      knows what it is, and `e` has it as its payload; or it is flat and has the fields of `e`. */
  ghost predicate IsEventOf(codec: Codec, m: Message, e: StreamEvent) {
    match m.body
    case Binary(d) =>
      || (exists letter :: codec.unmarshalDlq(d) == Some(letter) && letter.original == Some(e))
      || (codec.unmarshalDlq(d) == None && codec.unmarshalStream(d) == Some(e))
      || (codec.unmarshalDlq(d) == None && codec.unmarshalStream(d) == None
          && e == StreamEvent([], [], [], d, [], [], 0))
    case Flat(f) => FieldsOf(codec, f, e)
  }

  /** A dead-letter event that has lost its event. */
  predicate HasNoEvent(codec: Codec, m: Message) {
    && m.body.Binary? && codec.unmarshalDlq(m.body.d).Some?
    && codec.unmarshalDlq(m.body.d).value.original.None?
  }

  /** Where the letter's own fields come from: the message itself, if it is a dead-letter event; else what
      is known of it. */
  ghost predicate LetterOf(codec: Codec, m: Message, letter: DlqEvent) {
    match m.body
    case Binary(d) =>
      if codec.unmarshalDlq(d).Some? then codec.unmarshalDlq(d) == Some(letter)
      else
        && letter.originalId == m.name
        && letter.error == (if codec.unmarshalStream(d).Some? then codec.recovered else codec.unknown)
        && (letter.workerId, letter.retryCount) == (codec.leftover(d).workerId, codec.leftover(d).retryCount)
    case Flat(f) =>
      && letter.error == (match f.error case Some(v) => v case None => [])
      && letter.originalId == (match f.originalId case Some(v) => v case None => m.name)
      && letter.workerId == (match f.workerId case Some(v) => v case None => [])
      && letter.retryCount == (match f.retryCount case Some(n) => n case None => 0)
      && (f.failedAtUnix.Some? ==> letter.failedAtUnix == f.failedAtUnix.value)
  }

  /** The letter keeps the message's event, if it has one, and says what is known besides. */
  ghost predicate ArchivedAs(codec: Codec, m: Message, letter: DlqEvent) {
    && (letter.original.None? <==> HasNoEvent(codec, m))
    && (letter.original.Some? ==> IsEventOf(codec, m, letter.original.value))
    && LetterOf(codec, m, letter)
  }

  lemma NormalisedKeepsTheEvent(codec: Codec, m: Message, now: int)
    ensures ArchivedAs(codec, m, Normalised(codec, m, now))
  {
    if m.body.Binary? && codec.unmarshalDlq(m.body.d).Some? {
      assert codec.unmarshalDlq(m.body.d) == Some(Normalised(codec, m, now));
    }
  }

  /** A message has one event at most. */
  lemma EventIsUnique(codec: Codec, m: Message, e: StreamEvent, e': StreamEvent)
    requires IsEventOf(codec, m, e) && IsEventOf(codec, m, e')
    ensures e == e' && !HasNoEvent(codec, m)
  {
  }

  /** Archiving keeps the event of every message but those that are dead-letter events without one. */
  lemma OnlyEmptyLettersLoseTheirEvent(codec: Codec, m: Message, now: int)
    ensures Normalised(codec, m, now).original.None? <==>
      m.body.Binary? && codec.unmarshalDlq(m.body.d).Some? && codec.unmarshalDlq(m.body.d).value.original.None?
  {
  }

  // ------------------------------------------------------------------ records

  /** The records are printed dead-letter events, one for each message, that keep the messages' events. */
  ghost predicate RecordsOf(codec: Codec, ms: seq<Message>, events: seq<DlqEvent>, records: seq<Bytes>) {
    && |ms| == |events| == |records|
    && forall k :: 0 <= k < |ms| ==> RecordOf(codec, ms[k], events[k], records[k])
  }

  ghost predicate RecordOf(codec: Codec, m: Message, event: DlqEvent, record: Bytes) {
    ArchivedAs(codec, m, event) && codec.marshalDlq(event) == Some(record)
  }

  lemma RecordsOfSnoc(codec: Codec, all: seq<Message>, events: seq<DlqEvent>, records: seq<Bytes>,
                      event: DlqEvent, record: Bytes)
    requires |records| < |all| && RecordsOf(codec, all[..|records|], events, records)
    requires RecordOf(codec, all[|records|], event, record)
    ensures RecordsOf(codec, all[..|records| + 1], events + [event], records + [record])
  {
    var n := |records|;
    forall k | 0 <= k < n + 1 ensures RecordOf(codec, all[..n + 1][k], (events + [event])[k], (records + [record])[k]) {
      if k < n {
        assert RecordOf(codec, all[..n][k], events[k], records[k]);
      }
    }
  }

  /** What a run has archived: the first messages of the stream it found, behind the bytes it found. */
  datatype Log = Log(all: seq<Message>, before: Bytes, events: seq<DlqEvent>, records: seq<Bytes>)

  ghost predicate Faithfully(codec: Codec, log: Log, written: Bytes) {
    && |log.records| <= |log.all|
    && RecordsOf(codec, log.all[..|log.records|], log.events, log.records)
    && written == log.before + Frames(log.records)
  }
}
