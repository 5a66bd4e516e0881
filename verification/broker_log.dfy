/** One broker partition: an append-only log of records, each of which the payload parser turns
    into zero or more events. A record the parser rejects, or stops inside of, simply contributes
    the events handed over before it stopped. */
module BrokerLog {

  /** An event is identified by the offset of its record and its position inside that record. */
  datatype Event = Event(offset: nat, index: nat, body: string)

  /** Element `o` lists the bodies of the events parsed from the record at offset `o`. */
  type Log = seq<seq<string>>

  /** The events one record hands to the consumer, in order. */
  function RecordEvents(log: Log, o: nat): seq<Event>
    requires o < |log|
  {
    seq(|log[o]|, i requires 0 <= i < |log[o]| => Event(o, i, log[o][i]))
  }

  /** The record-by-record consumer: everything parsed from the records in [lo, hi), in log order. */
  function EventsIn(log: Log, lo: nat, hi: nat): seq<Event>
    requires lo <= hi <= |log|
    decreases hi
  {
    if lo == hi then [] else EventsIn(log, lo, hi - 1) + RecordEvents(log, hi - 1)
  }

  predicate Before(a: Event, b: Event) {
    a.offset < b.offset || (a.offset == b.offset && a.index < b.index)
  }

  lemma {:induction false} EventsInSplit(log: Log, lo: nat, mid: nat, hi: nat)
    requires lo <= mid <= hi <= |log|
    ensures EventsIn(log, lo, hi) == EventsIn(log, lo, mid) + EventsIn(log, mid, hi)
    decreases hi
  {
    if mid < hi {
      EventsInSplit(log, lo, mid, hi - 1);
    }
  }

  /** An event is in the slice exactly when its record is, and the parser produced it there. */
  lemma {:induction false} EventsInMembers(log: Log, lo: nat, hi: nat, e: Event)
    requires lo <= hi <= |log|
    ensures e in EventsIn(log, lo, hi) <==>
            lo <= e.offset < hi && e.index < |log[e.offset]| && e.body == log[e.offset][e.index]
    decreases hi
  {
    if lo < hi {
      EventsInMembers(log, lo, hi - 1, e);
      var record := RecordEvents(log, hi - 1);
      if e.offset == hi - 1 && e.index < |log[e.offset]| && e.body == log[e.offset][e.index] {
        assert record[e.index] == e;
      }
    }
  }

  /** Log order is strict, so no event occurs twice in a slice. */
  lemma {:induction false} EventsInOrdered(log: Log, lo: nat, hi: nat, i: nat, j: nat)
    requires lo <= hi <= |log|
    requires i < j < |EventsIn(log, lo, hi)|
    ensures Before(EventsIn(log, lo, hi)[i], EventsIn(log, lo, hi)[j])
    decreases hi
  {
    var front := EventsIn(log, lo, hi - 1);
    if j < |front| {
      EventsInOrdered(log, lo, hi - 1, i, j);
    } else if i < |front| {
      EventsInMembers(log, lo, hi - 1, front[i]);
    }
  }
}
