/** Deciding expiry on printed time stamps is deciding it on the clock: the manager of ManagerSpec,
    which compares text, refines the manager of Serialised, which compares seconds. */
module TextTime {
  import Calendar
  import opened CdrLog
  import opened SessionStores
  import opened SessionTimes
  import opened Serialised
  import opened ManagerSpec
  import TextOrder

  /** The text of times sorts like the times, up to the end of 9999. */
  ghost predicate KeepsOrder(text: TimeText) {
    forall t: nat, u: nat {:trigger text(t), text(u)} | t <= Calendar.MAX_INSTANT && u <= Calendar.MAX_INSTANT ::
      TextOrder.Less(text(t), text(u)) <==> t < u
  }

  lemma RenderKeepsOrder()
    ensures KeepsOrder(Calendar.Render)
  {
    forall t: nat, u: nat | t <= Calendar.MAX_INSTANT && u <= Calendar.MAX_INSTANT
      ensures TextOrder.Less(Calendar.Render(t), Calendar.Render(u)) <==> t < u
    {
      Calendar.RenderOrder(t, u);
    }
  }

  function PrintSession(text: TimeText, imsi: string, s: Session): StoredSession {
    StoredSession(imsi, text(s.created), text(s.expires))
  }

  function PrintStore(text: TimeText, store: Sessions): Table {
    map k | k in store :: PrintSession(text, k, store[k])
  }

  function PrintAction(a: Action): string {
    if a == Created then "created" else "expired"
  }

  function PrintEntry(text: TimeText, e: Entry): CdrRecord {
    CdrRecord(text(e.at), e.imsi, PrintAction(e.action))
  }

  function PrintLog(text: TimeText, log: seq<Entry>): seq<CdrRecord> {
    if log == [] then [] else PrintLog(text, log[..|log| - 1]) + [PrintEntry(text, log[|log| - 1])]
  }

  function PrintState(text: TimeText, s: State): World {
    World(PrintStore(text, s.store), PrintLog(text, s.log), s.clock)
  }

  /** All times that get compared are before the year 10000. */
  predicate InRange(store: Sessions, now: nat) {
    now <= Calendar.MAX_INSTANT && forall k | k in store :: store[k].expires <= Calendar.MAX_INSTANT
  }

  lemma ActiveByText(text: TimeText, s: Session, k: string, now: nat)
    requires KeepsOrder(text)
    requires now <= Calendar.MAX_INSTANT && s.expires <= Calendar.MAX_INSTANT
    ensures ActiveAt(PrintSession(text, k, s), text(now)) <==> now < s.expires
  {
  }

  lemma ExpiredByText(text: TimeText, kind: StoreKind, s: Session, k: string, now: nat)
    requires KeepsOrder(text)
    requires now <= Calendar.MAX_INSTANT && s.expires <= Calendar.MAX_INSTANT
    ensures ExpiredAt(kind, PrintSession(text, k, s), text(now)) <==> IsExpired(kind, s, now)
  {
  }

  lemma ActiveRowsByText(text: TimeText, store: Sessions, now: nat)
    requires KeepsOrder(text)
    requires InRange(store, now)
    ensures ActiveRows(PrintStore(text, store), text(now)) == PrintStore(text, Active(store, now))
  {
    var m := PrintStore(text, store);
    forall k | k in store
      ensures ActiveAt(m[k], text(now)) <==> now < store[k].expires
    {
      ActiveByText(text, store[k], k, now);
    }
  }

  lemma VerdictsByText(text: TimeText, kind: StoreKind, store: Sessions, now: nat)
    requires KeepsOrder(text)
    requires InRange(store, now)
    ensures forall k | k in store ::
              ExpiredAt(kind, PrintStore(text, store)[k], text(now)) <==> IsExpired(kind, store[k], now)
  {
    forall k | k in store
      ensures ExpiredAt(kind, PrintStore(text, store)[k], text(now)) <==> IsExpired(kind, store[k], now)
    {
      ExpiredByText(text, kind, store[k], k, now);
    }
  }

  lemma ExpiredRowsByText(text: TimeText, kind: StoreKind, store: Sessions, now: nat)
    requires KeepsOrder(text)
    requires InRange(store, now)
    ensures ExpiredRows(kind, PrintStore(text, store), text(now)) == PrintStore(text, ExpiredPart(kind, store, now))
  {
    VerdictsByText(text, kind, store, now);
  }

  lemma UnexpiredRowsByText(text: TimeText, kind: StoreKind, store: Sessions, now: nat)
    requires KeepsOrder(text)
    requires InRange(store, now)
    ensures UnexpiredRows(kind, PrintStore(text, store), text(now)) == PrintStore(text, Unexpired(kind, store, now))
  {
    VerdictsByText(text, kind, store, now);
  }

  /** The in-memory store lists and deletes at one second what SQLite does the second before. */
  lemma StoresDifferByOneSecond(text: TimeText, store: Sessions, now: nat)
    requires KeepsOrder(text)
    requires InRange(store, now + 1)
    ensures ExpiredRows(InMemory, PrintStore(text, store), text(now + 1)) ==
            ExpiredRows(Sqlite, PrintStore(text, store), text(now))
    ensures UnexpiredRows(InMemory, PrintStore(text, store), text(now + 1)) ==
            UnexpiredRows(Sqlite, PrintStore(text, store), text(now))
  {
    ExpiredRowsByText(text, InMemory, store, now + 1);
    ExpiredRowsByText(text, Sqlite, store, now);
    UnexpiredRowsByText(text, InMemory, store, now + 1);
    UnexpiredRowsByText(text, Sqlite, store, now);
    assert ExpiredPart(InMemory, store, now + 1) == ExpiredPart(Sqlite, store, now);
    assert Unexpired(InMemory, store, now + 1) == Unexpired(Sqlite, store, now);
  }

  /** A session saved with a timeout of at least a second is active when it is saved. */
  lemma FreshSessionIsActive(text: TimeText, imsi: string, now: nat, timeout: nat)
    requires KeepsOrder(text)
    requires now + timeout <= Calendar.MAX_INSTANT
    ensures ActiveAt(PrintSession(text, imsi, Session(now, now + timeout)), text(now)) <==> timeout >= 1
  {
    ActiveByText(text, Session(now, now + timeout), imsi, now);
  }

  lemma PrintLogSnoc(text: TimeText, log: seq<Entry>, e: Entry)
    ensures PrintLog(text, log + [e]) == PrintLog(text, log) + [PrintEntry(text, e)]
  {
    assert (log + [e])[..|log|] == log;
  }

  lemma {:induction false} PrintExpiries(text: TimeText, log: seq<Entry>, order: seq<string>, at: nat)
    ensures PrintLog(text, WithExpiries(log, order, at)) == WithExpiryRecords(PrintLog(text, log), order, text(at))
  {
    if order != [] {
      var init, last := order[..|order| - 1], order[|order| - 1];
      PrintExpiries(text, log, init, at);
      PrintLogSnoc(text, WithExpiries(log, init, at), Entry(at, last, Expired));
    }
  }

  lemma PrintStoreUpdate(text: TimeText, store: Sessions, k: string, s: Session)
    ensures PrintStore(text, store[k := s]) == PrintStore(text, store)[k := PrintSession(text, k, s)]
    ensures PrintStore(text, store - {k}) == PrintStore(text, store) - {k}
  {
  }

  lemma TouchRecordByText(text: TimeText, s: State, imsi: string)
    ensures PrintLog(text, s.log + if imsi in s.store then [] else [Entry(s.clock, imsi, Created)]) ==
            PrintLog(text, s.log) + if imsi in s.store then [] else [CdrRecord(text(s.clock), imsi, "created")]
  {
    if imsi in s.store {
      assert s.log + [] == s.log && PrintLog(text, s.log) + [] == PrintLog(text, s.log);
    } else {
      PrintLogSnoc(text, s.log, Entry(s.clock, imsi, Created));
    }
  }

  /** The part of TouchByText that is about records: the printed table has the same keys. */
  lemma TouchedWorld(text: TimeText, kind: StoreKind, timeout: nat, s: State, imsi: string,
                     table: Table, records: seq<CdrRecord>)
    requires table.Keys == s.store.Keys
    ensures Do(text, kind, timeout, World(table, records, s.clock), Touch(imsi)) ==
            World(table[imsi := PrintSession(text, imsi, Session(s.clock, s.clock + timeout))],
                  records + if imsi in s.store then [] else [CdrRecord(text(s.clock), imsi, "created")], s.clock)
  {
    assert imsi in table <==> imsi in s.store;
  }

  lemma TouchByText(text: TimeText, kind: StoreKind, timeout: nat, s: State, imsi: string)
    ensures Do(text, kind, timeout, PrintState(text, s), Touch(imsi)) ==
            PrintState(text, Apply(kind, timeout, s, Touch(imsi)))
  {
    var table, records := PrintStore(text, s.store), PrintLog(text, s.log);
    var s', saved := Apply(kind, timeout, s, Touch(imsi)), Session(s.clock, s.clock + timeout);
    assert table.Keys == s.store.Keys;
    TouchedWorld(text, kind, timeout, s, imsi, table, records);
    assert PrintStore(text, s'.store) == table[imsi := PrintSession(text, imsi, saved)] by {
      PrintStoreUpdate(text, s.store, imsi, saved);
    }
    TouchRecordByText(text, s, imsi);
  }

  lemma OffloadByText(text: TimeText, kind: StoreKind, timeout: nat, s: State, imsi: string)
    requires KeepsOrder(text)
    requires InRange(s.store, s.clock)
    ensures Possible(text, kind, PrintState(text, s), Offload(imsi)) <==> Enabled(kind, s, Offload(imsi))
    ensures Do(text, kind, timeout, PrintState(text, s), Offload(imsi)) ==
            PrintState(text, Apply(kind, timeout, s, Offload(imsi)))
  {
    ActiveRowsByText(text, s.store, s.clock);
    PrintStoreUpdate(text, s.store, imsi, Session(0, 0));
    PrintLogSnoc(text, s.log, Entry(s.clock, imsi, Expired));
  }

  lemma CleanByText(text: TimeText, kind: StoreKind, timeout: nat, s: State, order: seq<string>)
    requires KeepsOrder(text)
    requires InRange(s.store, s.clock)
    ensures Possible(text, kind, PrintState(text, s), Clean(order)) <==> Enabled(kind, s, Clean(order))
    ensures Do(text, kind, timeout, PrintState(text, s), Clean(order)) ==
            PrintState(text, Apply(kind, timeout, s, Clean(order)))
  {
    ExpiredRowsByText(text, kind, s.store, s.clock);
    UnexpiredRowsByText(text, kind, s.store, s.clock);
    assert PrintStore(text, ExpiredPart(kind, s.store, s.clock)).Keys == ExpiredPart(kind, s.store, s.clock).Keys;
    PrintExpiries(text, s.log, order, s.clock);
  }

  lemma StepByText(text: TimeText, kind: StoreKind, timeout: nat, s: State, e: Event)
    requires KeepsOrder(text)
    requires InRange(s.store, s.clock)
    ensures Possible(text, kind, PrintState(text, s), e) <==> Enabled(kind, s, e)
    ensures Do(text, kind, timeout, PrintState(text, s), e) == PrintState(text, Apply(kind, timeout, s, e))
  {
    match e
    case Touch(imsi) => TouchByText(text, kind, timeout, s, imsi);
    case Offload(imsi) => OffloadByText(text, kind, timeout, s, imsi);
    case Clean(order) => CleanByText(text, kind, timeout, s, order);
    case Tick(_) =>
  }

  lemma {:induction false} RunStaysInRange(kind: StoreKind, timeout: nat, s: State, es: seq<Event>)
    requires InRange(s.store, s.clock) && ClockAfter(s.clock, es) + timeout <= Calendar.MAX_INSTANT
    ensures After(kind, timeout, s, es).clock == ClockAfter(s.clock, es)
    ensures InRange(After(kind, timeout, s, es).store, After(kind, timeout, s, es).clock)
  {
    if es != [] {
      RunStaysInRange(kind, timeout, s, es[..|es| - 1]);
    }
  }

  /** A run over text, for as long as its times stay below the year 10000, is the same run over seconds. */
  lemma {:induction false} RunByText(text: TimeText, kind: StoreKind, timeout: nat, s: State, es: seq<Event>)
    requires KeepsOrder(text)
    requires InRange(s.store, s.clock) && ClockAfter(s.clock, es) + timeout <= Calendar.MAX_INSTANT
    ensures AllPossible(text, kind, timeout, PrintState(text, s), es) <==> Runs(kind, timeout, s, es)
    ensures DoAll(text, kind, timeout, PrintState(text, s), es) == PrintState(text, After(kind, timeout, s, es))
  {
    if es != [] {
      var init := es[..|es| - 1];
      RunByText(text, kind, timeout, s, init);
      RunStaysInRange(kind, timeout, s, init);
      StepByText(text, kind, timeout, After(kind, timeout, s, init), es[|es| - 1]);
    }
  }

  /** What is_active answers in a world. */
  predicate Answers(text: TimeText, w: World, imsi: string) {
    imsi in ActiveRows(w.table, text(w.clock))
  }

  /** Answering is finding a stored session whose expiry is after now. */
  lemma AnswersExactly(text: TimeText, w: World, imsi: string)
    ensures Answers(text, w, imsi) <==> imsi in w.table && TextOrder.Less(text(w.clock), w.table[imsi].expiresAt)
  {
  }

  /** After every run, is_active answers true exactly for an IMSI that was last touched, and not offloaded since, less
      than a timeout ago, or that was restored with a later expiry and has not been touched or offloaded. */
  lemma AnswersByHistory(text: TimeText, kind: StoreKind, timeout: nat, s: State, es: seq<Event>, imsi: string)
    requires KeepsOrder(text)
    requires InRange(s.store, s.clock) && ClockAfter(s.clock, es) + timeout <= Calendar.MAX_INSTANT
    requires AllPossible(text, kind, timeout, PrintState(text, s), es)
    ensures var now := ClockAfter(s.clock, es);
            Answers(text, DoAll(text, kind, timeout, PrintState(text, s), es), imsi) <==>
            TouchedInTime(timeout, s.clock, es, imsi, now) || RestoredInTime(s.store, es, imsi, now)
  {
    RunByText(text, kind, timeout, s, es);
    RunStaysInRange(kind, timeout, s, es);
    ActiveExactlyByHistory(kind, timeout, s, es, imsi);
    var t := After(kind, timeout, s, es);
    ActiveRowsByText(text, t.store, t.clock);
  }

  /** No subscriber can tell by is_active which store the server uses or when its cleaner ran: two
      servers with the same touches, offloads and clock give the same answers. */
  lemma SubscribersCannotTell(text: TimeText, timeout: nat, s: State, t: State, es: seq<Event>, fs: seq<Event>,
                              imsi: string)
    requires KeepsOrder(text)
    requires InRange(s.store, s.clock) && ClockAfter(s.clock, es) + timeout <= Calendar.MAX_INSTANT
    requires InRange(t.store, t.clock) && ClockAfter(t.clock, fs) + timeout <= Calendar.MAX_INSTANT
    requires AllPossible(text, InMemory, timeout, PrintState(text, s), es)
    requires AllPossible(text, Sqlite, timeout, PrintState(text, t), fs)
    requires LooksLike(s, t) && WithoutCleaner(es) == WithoutCleaner(fs)
    ensures Answers(text, DoAll(text, InMemory, timeout, PrintState(text, s), es), imsi) <==>
            Answers(text, DoAll(text, Sqlite, timeout, PrintState(text, t), fs), imsi)
  {
    RunByText(text, InMemory, timeout, s, es);
    RunByText(text, Sqlite, timeout, t, fs);
    RunStaysInRange(InMemory, timeout, s, es);
    RunStaysInRange(Sqlite, timeout, t, fs);
    StoresAndSchedulesLookAlike(InMemory, Sqlite, timeout, s, t, es, fs);
    var s', t' := After(InMemory, timeout, s, es), After(Sqlite, timeout, t, fs);
    ActiveRowsByText(text, s'.store, s'.clock);
    ActiveRowsByText(text, t'.store, t'.clock);
  }

  /** In particular with the server's own time stamps. */
  lemma ServersLookAlike(timeout: nat, s: State, t: State, es: seq<Event>, fs: seq<Event>, imsi: string)
    requires InRange(s.store, s.clock) && ClockAfter(s.clock, es) + timeout <= Calendar.MAX_INSTANT
    requires InRange(t.store, t.clock) && ClockAfter(t.clock, fs) + timeout <= Calendar.MAX_INSTANT
    requires AllPossible(Calendar.Render, InMemory, timeout, PrintState(Calendar.Render, s), es)
    requires AllPossible(Calendar.Render, Sqlite, timeout, PrintState(Calendar.Render, t), fs)
    requires LooksLike(s, t) && WithoutCleaner(es) == WithoutCleaner(fs)
    ensures var text := Calendar.Render;
            Answers(text, DoAll(text, InMemory, timeout, PrintState(text, s), es), imsi) <==>
            Answers(text, DoAll(text, Sqlite, timeout, PrintState(text, t), fs), imsi)
  {
    RenderKeepsOrder();
    SubscribersCannotTell(Calendar.Render, timeout, s, t, es, fs, imsi);
  }

  /** While the clock runs below the year 10000, sessions only become inactive. */
  lemma ActiveOnlyShrinks(text: TimeText, m: Table, now: nat, later: nat)
    requires KeepsOrder(text)
    requires now <= later <= Calendar.MAX_INSTANT
    ensures forall k | k in ActiveRows(m, text(later)) :: k in ActiveRows(m, text(now))
  {
    forall k | k in ActiveRows(m, text(later))
      ensures TextOrder.Less(text(now), m[k].expiresAt)
    {
      if now < later {
        TextOrder.LessTransitive(text(now), text(later), m[k].expiresAt);
      }
    }
  }
}
