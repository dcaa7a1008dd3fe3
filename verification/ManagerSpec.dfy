/** The session manager as the code has it, with times as text: the table of stored sessions, the
    order of CDR writes, and the clock. The events are those of the module Serialised. How a time
    prints is a parameter; the server uses Calendar.Render. */
module ManagerSpec {
  import opened CdrLog
  import opened SessionStores
  import opened SessionTimes
  import opened Serialised

  type TimeText = nat -> string

  datatype World = World(table: Table, records: seq<CdrRecord>, clock: nat)

  /** The records after an "expired" for each of `order`, in that order. */
  function WithExpiryRecords(records: seq<CdrRecord>, order: seq<string>, now: string): seq<CdrRecord> {
    if order == [] then records
    else WithExpiryRecords(records, order[..|order| - 1], now) + [CdrRecord(now, order[|order| - 1], "expired")]
  }

  /** One record for each of `order`, in order. */
  lemma {:induction false} ExpiryRecordsInOrder(records: seq<CdrRecord>, order: seq<string>, now: string)
    ensures var all := WithExpiryRecords(records, order, now);
            && |all| == |records| + |order| && all[..|records|] == records
            && forall i | 0 <= i < |order| :: all[|records| + i] == CdrRecord(now, order[i], "expired")
  {
    if order != [] {
      ExpiryRecordsInOrder(records, order[..|order| - 1], now);
    }
  }

  predicate Possible(text: TimeText, kind: StoreKind, w: World, e: Event) {
    match e
    case Touch(_) => true
    case Offload(imsi) => imsi in ActiveRows(w.table, text(w.clock))
    case Clean(order) => Enumerates(order, ExpiredRows(kind, w.table, text(w.clock)).Keys)
    case Tick(_) => true
  }

  function Do(text: TimeText, kind: StoreKind, timeout: nat, w: World, e: Event): World {
    var now := text(w.clock);
    match e
    case Touch(imsi) =>
      w.(table := w.table[imsi := StoredSession(imsi, now, text(w.clock + timeout))],
         records := w.records + if imsi in w.table then [] else [CdrRecord(now, imsi, "created")])
    case Offload(imsi) =>
      w.(table := w.table - {imsi}, records := w.records + [CdrRecord(now, imsi, "expired")])
    case Clean(order) =>
      w.(table := UnexpiredRows(kind, w.table, now), records := WithExpiryRecords(w.records, order, now))
    case Tick(seconds) => w.(clock := w.clock + seconds)
  }

  function DoAll(text: TimeText, kind: StoreKind, timeout: nat, w: World, es: seq<Event>): World {
    if es == [] then w
    else Do(text, kind, timeout, DoAll(text, kind, timeout, w, es[..|es| - 1]), es[|es| - 1])
  }

  predicate AllPossible(text: TimeText, kind: StoreKind, timeout: nat, w: World, es: seq<Event>) {
    es == [] ||
    (AllPossible(text, kind, timeout, w, es[..|es| - 1])
     && Possible(text, kind, DoAll(text, kind, timeout, w, es[..|es| - 1]), es[|es| - 1]))
  }
}
