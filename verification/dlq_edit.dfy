/** The editable form of a dead-letter event, and what survives the way there and back. */
module DlqEdit {
  import opened Options
  import opened DlqMessages

  /** Text is carried as its bytes; a parsed UUID is its sixteen bytes. */
  datatype UuidText = UuidText(format: Bytes -> Bytes, parse: Bytes -> Option<Bytes>)

  /** Sixteen bytes are printed as text that parses to them, only sixteen bytes come out of
      parsing, and the empty text is no UUID. */
  ghost predicate Faithful(uuid: UuidText) {
    && (forall b: Bytes :: |b| == 16 ==> uuid.format(b) != [] && uuid.parse(uuid.format(b)) == Some(b))
    && (forall t: Bytes :: uuid.parse(t).Some? ==> |uuid.parse(t).value| == 16)
    && uuid.parse([]).None?
  }

  datatype EditableEvent = EditableEvent(
    clickId: Bytes, campaignId: Bytes, eventType: Bytes, payload: Bytes, ip: Bytes, ua: Bytes, createdAtUnix: int)

  datatype Editable = Editable(
    id: Bytes, error: Bytes, originalId: Bytes, failedAtUnix: int, workerId: Bytes, retryCount: int,
    original: EditableEvent)

  const NOTHING := EditableEvent([], [], [], [], [], [], 0)

  function ToEditable(uuid: UuidText, id: Bytes, e: DlqEvent): Editable {
    var original :=
      if e.original.None? then NOTHING
      else
        var o := e.original.value;
        var printed := if |o.campaignId| == 16 then uuid.format(o.campaignId) else [];
        EditableEvent(o.clickId, if printed == [] then o.campaignId else printed, o.eventType, o.payload,
                      o.ip, o.ua, o.createdAtUnix);
    Editable(id, e.error, e.originalId, e.failedAtUnix, e.workerId, e.retryCount, original)
  }

  function FromEditable(uuid: UuidText, edit: Editable): DlqEvent {
    var o := edit.original;
    var campaign := uuid.parse(o.campaignId);
    DlqEvent(Some(StreamEvent(o.clickId, if campaign.Some? then campaign.value else o.campaignId, o.eventType,
                              o.payload, o.ip, o.ua, o.createdAtUnix)),
             edit.error, edit.originalId, edit.failedAtUnix, edit.workerId, edit.retryCount)
  }

  /** An unedited event comes back unchanged exactly when it has an original event whose campaign id
      is sixteen bytes, or is not the text of a UUID. */
  lemma EditIdentityIff(uuid: UuidText, id: Bytes, e: DlqEvent)
    requires Faithful(uuid)
    ensures FromEditable(uuid, ToEditable(uuid, id, e)) == e
            <==> e.original.Some? &&
                 (|e.original.value.campaignId| == 16 || uuid.parse(e.original.value.campaignId).None?)
  {
    if e.original.Some? {
      var campaign := e.original.value.campaignId;
      if |campaign| == 16 {
        assert uuid.parse(uuid.format(campaign)) == Some(campaign);
      }
    }
  }

  /** Whatever the event, editing twice changes nothing more than editing once. */
  lemma EditSettles(uuid: UuidText, id: Bytes, e: DlqEvent)
    requires Faithful(uuid)
    ensures var once := FromEditable(uuid, ToEditable(uuid, id, e));
            FromEditable(uuid, ToEditable(uuid, id, once)) == once
  {
    EditIdentityIff(uuid, id, FromEditable(uuid, ToEditable(uuid, id, e)));
  }

  /** What is edited is what changes: with a campaign id of sixteen bytes, the text shows each field in
      its place, and a field changed there is the field changed in the event. */
  lemma EditsTakeEffect(uuid: UuidText, id: Bytes, e: DlqEvent, o: StreamEvent, text: Bytes, time: int)
    requires Faithful(uuid) && e.original == Some(o) && |o.campaignId| == 16
    ensures var edit := ToEditable(uuid, id, e);
            var shown := edit.original;
            && (edit.id, edit.error, edit.originalId, edit.workerId) == (id, e.error, e.originalId, e.workerId)
            && (edit.failedAtUnix, edit.retryCount) == (e.failedAtUnix, e.retryCount)
            && (shown.clickId, shown.eventType, shown.payload) == (o.clickId, o.eventType, o.payload)
            && (shown.ip, shown.ua, shown.createdAtUnix) == (o.ip, o.ua, o.createdAtUnix)
            && shown.campaignId == uuid.format(o.campaignId)
    ensures var edit := ToEditable(uuid, id, e);
            && FromEditable(uuid, edit.(error := text)) == e.(error := text)
            && FromEditable(uuid, edit.(originalId := text)) == e.(originalId := text)
            && FromEditable(uuid, edit.(workerId := text)) == e.(workerId := text)
            && FromEditable(uuid, edit.(failedAtUnix := time)) == e.(failedAtUnix := time)
            && FromEditable(uuid, edit.(retryCount := time)) == e.(retryCount := time)
    ensures var edit := ToEditable(uuid, id, e);
            var shown := edit.original;
            && FromEditable(uuid, edit.(original := shown.(payload := text))).original == Some(o.(payload := text))
            && FromEditable(uuid, edit.(original := shown.(clickId := text))).original == Some(o.(clickId := text))
            && FromEditable(uuid, edit.(original := shown.(eventType := text))).original == Some(o.(eventType := text))
            && FromEditable(uuid, edit.(original := shown.(ip := text))).original == Some(o.(ip := text))
            && FromEditable(uuid, edit.(original := shown.(ua := text))).original == Some(o.(ua := text))
  {
    EditIdentityIff(uuid, id, e);
    assert uuid.format(o.campaignId) != [] && uuid.parse(uuid.format(o.campaignId)) == Some(o.campaignId);
  }
}
