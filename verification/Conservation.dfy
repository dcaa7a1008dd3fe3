/** Where sessions go, over every interleaving: the records of each IMSI account for its session. */
module Conservation {
  import opened SessionTimes
  import opened Interleaved

  function CountOf(log: seq<Entry>, imsi: string, action: Action): nat {
    if log == [] then 0
    else CountOf(log[..|log| - 1], imsi, action) +
         (if log[|log| - 1].imsi == imsi && log[|log| - 1].action == action then 1 else 0)
  }

  lemma CountOfSnoc(log: seq<Entry>, e: Entry, imsi: string, action: Action)
    ensures CountOf(log + [e], imsi, action) ==
            CountOf(log, imsi, action) + if e.imsi == imsi && e.action == action then 1 else 0
  {
    assert (log + [e])[..|log|] == log;
  }

  function One(b: bool): nat {
    if b then 1 else 0
  }

  function Owner(s: State): Thread {
    if |s.lock| == 1 && s.lock[0] < |s.threads| then s.threads[s.lock[0]] else UdpLoop
  }

  /** A session is saved and its "created" record is about to be written. */
  function CreatePending(s: State, imsi: string): nat {
    One(Owner(s).TouchRecord? && Owner(s).imsi == imsi)
  }

  /** delete_session is done and the "expired" record is about to be written. */
  function ExpirePending(s: State, imsi: string): nat {
    One(Owner(s).OffRecord? && Owner(s).imsi == imsi)
  }

  predicate InTail(listed: seq<string>, next: nat, imsi: string) {
    exists j | next <= j < |listed| :: listed[j] == imsi
  }

  /** The cleaner has listed the session and will still write its "expired" record. */
  function CleanPending(s: State, imsi: string): nat {
    One(s.cleaner.CleanRecord? && InTail(s.cleaner.listed, s.cleaner.next, imsi))
  }

  /** The cleaner has listed the session and not yet deleted it. */
  function Listed(s: State, imsi: string): nat {
    One(s.cleaner.CleanRecord? && imsi in s.cleaner.listed)
  }

  /** What a session owes and what accounts for it; `init` tells whether it was restored at the start. */
  function Debit(s: State, imsi: string, init: nat): nat {
    CountOf(s.log, imsi, Created) + CreatePending(s, imsi) + init + s.revived[imsi] + s.surplus[imsi] + Listed(s, imsi)
  }

  function Credit(s: State, imsi: string): nat {
    CountOf(s.log, imsi, Expired) + ExpirePending(s, imsi) + CleanPending(s, imsi) + One(imsi in s.store) + s.lost[imsi]
  }

  lemma BystanderKeepsBalance(cfg: Config, s: State, tid: nat, input: Input, imsi: string, init: nat)
    requires Mutex(s) && CanHappen(cfg, s, Step(tid, input)) && !Holds(s.threads[tid])
    ensures var s' := ThreadStep(cfg, s, tid, input);
            Debit(s', imsi, init) == Debit(s, imsi, init) && Credit(s', imsi) == Credit(s, imsi)
  {
    var s' := ThreadStep(cfg, s, tid, input);
    assert s'.store == s.store && s'.log == s.log;
    assert s'.surplus == s.surplus && s'.revived == s.revived;
    if s.lock == [] {
      StepUsesLock(cfg, s, tid, input);
      assert !Owner(s').TouchRecord? && !Owner(s').OffRecord?;
    } else {
      assert s.lock[0] in s.lock && s.lock == [s.lock[0]] && s.lock[0] != tid;
      assert Owner(s') == Owner(s);
    }
  }

  lemma OwnerAfter(cfg: Config, s: State, tid: nat, input: Input, imsi: string)
    requires Mutex(s) && CanHappen(cfg, s, Step(tid, input)) && Holds(s.threads[tid])
    ensures var t, s' := s.threads[tid], ThreadStep(cfg, s, tid, input);
            && CreatePending(s, imsi) == One(t.TouchRecord? && t.imsi == imsi)
            && ExpirePending(s, imsi) == One(t.OffRecord? && t.imsi == imsi)
            && CreatePending(s', imsi) == One(t.TouchSave? && !t.known && t.imsi == imsi)
            && ExpirePending(s', imsi) == One(t.OffDelete? && t.imsi == imsi)
  {
    assert Owner(s) == s.threads[tid];
  }

  lemma CountsAfter(log: seq<Entry>, clock: nat, t: Thread, imsi: string)
    ensures CountOf(LogAfter(log, clock, t), imsi, Created) ==
            CountOf(log, imsi, Created) + One(t.TouchRecord? && t.imsi == imsi)
    ensures CountOf(LogAfter(log, clock, t), imsi, Expired) ==
            CountOf(log, imsi, Expired) + One(t.OffRecord? && t.imsi == imsi)
  {
    if t.TouchRecord? {
      CountOfSnoc(log, Entry(t.now, t.imsi, Created), imsi, Created);
      CountOfSnoc(log, Entry(t.now, t.imsi, Created), imsi, Expired);
    } else if t.OffRecord? {
      CountOfSnoc(log, Entry(clock, t.imsi, Expired), imsi, Created);
      CountOfSnoc(log, Entry(clock, t.imsi, Expired), imsi, Expired);
    }
  }

  /** Saving adds the session and owes a record, or a revival; deleting takes the session, or adds to the surplus. */
  lemma StoreChange(store: Sessions, t: Thread, imsi: string)
    requires t.TouchSave? && !t.known ==> t.imsi !in store
    ensures One(imsi in StoreAfter(store, t)) + One(t.OffDelete? && t.imsi == imsi) ==
            One(imsi in store) + One(t.TouchSave? && !t.known && t.imsi == imsi)
            + NewlyRevived(store, t)[imsi] + NewSurplus(store, t)[imsi]
  {
  }

  lemma OwnerKeepsBalance(cfg: Config, s: State, tid: nat, input: Input, imsi: string, init: nat)
    requires Mutex(s) && CanHappen(cfg, s, Step(tid, input)) && Holds(s.threads[tid])
    ensures var s' := ThreadStep(cfg, s, tid, input);
            Debit(s', imsi, init) + Credit(s, imsi) == Debit(s, imsi, init) + Credit(s', imsi)
  {
    var t, s' := s.threads[tid], ThreadStep(cfg, s, tid, input);
    OwnerAfter(cfg, s, tid, input, imsi);
    CountsAfter(s.log, s.clock, t, imsi);
    StoreChange(s.store, t, imsi);
    assert s'.revived[imsi] == s.revived[imsi] + NewlyRevived(s.store, t)[imsi];
    assert s'.surplus[imsi] == s.surplus[imsi] + NewSurplus(s.store, t)[imsi];
    assert Listed(s', imsi) == Listed(s, imsi) && CleanPending(s', imsi) == CleanPending(s, imsi);
  }

  /** The cleaner does not touch what threads owe. */
  lemma SweepFrame(cfg: Config, s: State, order: seq<string>, imsi: string)
    ensures var s' := SweepStep(cfg, s, order);
            && CreatePending(s', imsi) == CreatePending(s, imsi) && ExpirePending(s', imsi) == ExpirePending(s, imsi)
            && s'.revived == s.revived
  {
    assert Owner(SweepStep(cfg, s, order)) == Owner(s);
  }

  lemma ListingKeepsBalance(cfg: Config, s: State, order: seq<string>, imsi: string, init: nat)
    requires CleanerOk(s) && CanHappen(cfg, s, Sweep(order)) && !s.cleaner.CleanRecord?
    ensures var s' := SweepStep(cfg, s, order);
            Debit(s', imsi, init) + Credit(s, imsi) == Debit(s, imsi, init) + Credit(s', imsi)
  {
    assert InTail(order, 0, imsi) <==> imsi in order;
    SweepFrame(cfg, s, order, imsi);
  }

  lemma CleanPendingStep(listed: seq<string>, next: nat, imsi: string)
    requires next < |listed| && forall i, j | 0 <= i < j < |listed| :: listed[i] != listed[j]
    ensures One(InTail(listed, next, imsi)) == One(imsi == listed[next]) + One(InTail(listed, next + 1, imsi))
  {
  }

  lemma RecordingCounts(cfg: Config, s: State, order: seq<string>, imsi: string)
    requires s.cleaner.CleanRecord? && s.cleaner.next < |s.cleaner.listed|
    ensures var log := SweepStep(cfg, s, order).log;
            && CountOf(log, imsi, Created) == CountOf(s.log, imsi, Created)
            && CountOf(log, imsi, Expired) ==
               CountOf(s.log, imsi, Expired) + One(imsi == s.cleaner.listed[s.cleaner.next])
  {
    var e, log := Entry(s.cleaner.now, s.cleaner.listed[s.cleaner.next], Expired), SweepStep(cfg, s, order).log;
    assert log == s.log + [e];
    ExpiredCounts(s.log, log, e, imsi);
  }

  lemma ExpiredCounts(log: seq<Entry>, log': seq<Entry>, e: Entry, imsi: string)
    requires log' == log + [e] && e.action == Expired
    ensures CountOf(log', imsi, Created) == CountOf(log, imsi, Created)
    ensures CountOf(log', imsi, Expired) == CountOf(log, imsi, Expired) + One(imsi == e.imsi)
  {
    CountOfSnoc(log, e, imsi, Created);
    CountOfSnoc(log, e, imsi, Expired);
  }

  lemma RecordingPending(cfg: Config, s: State, order: seq<string>, imsi: string)
    requires CleanerOk(s) && s.cleaner.CleanRecord? && s.cleaner.next < |s.cleaner.listed|
    ensures var s' := SweepStep(cfg, s, order);
            && CleanPending(s, imsi) == CleanPending(s', imsi) + One(imsi == s.cleaner.listed[s.cleaner.next])
            && Listed(s', imsi) == Listed(s, imsi)
            && s'.store == s.store && s'.lost == s.lost && s'.surplus == s.surplus
  {
    CleanPendingStep(s.cleaner.listed, s.cleaner.next, imsi);
  }

  lemma RecordingKeepsBalance(cfg: Config, s: State, order: seq<string>, imsi: string, init: nat)
    requires CleanerOk(s) && s.cleaner.CleanRecord? && s.cleaner.next < |s.cleaner.listed|
    ensures var s' := SweepStep(cfg, s, order);
            Debit(s', imsi, init) + Credit(s, imsi) == Debit(s, imsi, init) + Credit(s', imsi)
  {
    RecordingCounts(cfg, s, order, imsi);
    RecordingPending(cfg, s, order, imsi);
    SweepFrame(cfg, s, order, imsi);
  }

  /** A deletion settles what was listed: each listed session is deleted or counts as surplus, each deleted
      one was listed or counts as lost. */
  lemma Settlement(gone: set<string>, listed: set<string>, imsi: string)
    ensures multiset(gone - listed)[imsi] + One(imsi in listed) == multiset(listed - gone)[imsi] + One(imsi in gone)
  {
    assert multiset(gone - listed)[imsi] == One(imsi in gone - listed);
    assert multiset(listed - gone)[imsi] == One(imsi in listed - gone);
  }

  lemma DeletingKeepsBalance(cfg: Config, s: State, order: seq<string>, imsi: string, init: nat)
    requires CleanerOk(s) && s.cleaner.CleanRecord? && s.cleaner.next == |s.cleaner.listed|
    ensures var s' := SweepStep(cfg, s, order);
            Debit(s', imsi, init) + Credit(s, imsi) == Debit(s, imsi, init) + Credit(s', imsi)
  {
    var gone := ExpiredPart(cfg.kind, s.store, s.cleaner.now).Keys;
    Settlement(gone, SetOf(s.cleaner.listed), imsi);
    SweepFrame(cfg, s, order, imsi);
    assert One(imsi in Unexpired(cfg.kind, s.store, s.cleaner.now)) == One(imsi in s.store) - One(imsi in gone);
  }

  lemma NextKeepsBalance(cfg: Config, s: State, e: Event, imsi: string, init: nat)
    requires Mutex(s) && CleanerOk(s) && CanHappen(cfg, s, e)
    ensures var s' := Next(cfg, s, e);
            Debit(s', imsi, init) + Credit(s, imsi) == Debit(s, imsi, init) + Credit(s', imsi)
  {
    match e
    case Pass(_) => assert Owner(Next(cfg, s, e)) == Owner(s);
    case Step(tid, input) =>
      if Holds(s.threads[tid]) {
        OwnerKeepsBalance(cfg, s, tid, input, imsi, init);
      } else {
        BystanderKeepsBalance(cfg, s, tid, input, imsi, init);
      }
    case Sweep(order) =>
      if !s.cleaner.CleanRecord? {
        ListingKeepsBalance(cfg, s, order, imsi, init);
      } else if s.cleaner.next < |s.cleaner.listed| {
        RecordingKeepsBalance(cfg, s, order, imsi, init);
      } else {
        DeletingKeepsBalance(cfg, s, order, imsi, init);
      }
  }

  /** After every run, for every IMSI: its "created" records, pending or written, the restored session,
      the revivals and the records that removed nothing equal its "expired" records, pending or written,
      the session still stored, and the sessions lost. */
  lemma {:induction false} BooksBalance(cfg: Config, s: State, es: seq<Event>, imsi: string)
    requires IsStart(s) && CanRun(cfg, s, es)
    ensures Debit(Reach(cfg, s, es), imsi, One(imsi in s.store)) == Credit(Reach(cfg, s, es), imsi)
    decreases |es|
  {
    if es != [] {
      var init := es[..|es| - 1];
      BooksBalance(cfg, s, init, imsi);
      StartIsMutex(s);
      RunKeepsMutex(cfg, s, init);
      NextKeepsBalance(cfg, Reach(cfg, s, init), es[|es| - 1], imsi, One(imsi in s.store));
    }
  }

  // When is a session lost?

  /** The cleaner is past its listing, and would now delete the session although it did not list it. */
  predicate AboutToLose(cfg: Config, s: State, imsi: string) {
    && s.cleaner.CleanRecord? && imsi !in s.cleaner.listed
    && imsi in s.store && IsExpired(cfg.kind, s.store[imsi], s.cleaner.now)
  }

  predicate LossesAreStale(cfg: Config, s: State, imsi: string) {
    s.lost[imsi] + One(AboutToLose(cfg, s, imsi)) <= s.stale[imsi]
  }

  lemma ThreadKeepsLosses(cfg: Config, s: State, tid: nat, input: Input, imsi: string)
    requires CleanerOk(s) && CanHappen(cfg, s, Step(tid, input)) && LossesAreStale(cfg, s, imsi)
    ensures LossesAreStale(cfg, ThreadStep(cfg, s, tid, input), imsi)
  {
    var t, s' := s.threads[tid], ThreadStep(cfg, s, tid, input);
    if t.TouchSave? && t.imsi == imsi {
      if t.expires <= s.clock {
        assert s'.stale[imsi] == s.stale[imsi] + 1;
      } else {
        assert !AboutToLose(cfg, s', imsi);
      }
    } else {
      assert AboutToLose(cfg, s', imsi) ==> AboutToLose(cfg, s, imsi);
    }
  }

  lemma SweepKeepsLosses(cfg: Config, s: State, order: seq<string>, imsi: string)
    requires CleanerOk(s) && CanHappen(cfg, s, Sweep(order)) && LossesAreStale(cfg, s, imsi)
    ensures LossesAreStale(cfg, SweepStep(cfg, s, order), imsi)
  {
    var s' := SweepStep(cfg, s, order);
    if s.cleaner.CleanLoad? {
      assert imsi in ExpiredPart(cfg.kind, s.store, s.cleaner.now).Keys ==> imsi in order;
    } else if s.cleaner.CleanRecord? && s.cleaner.next == |s.cleaner.listed| {
      var gone, listed := ExpiredPart(cfg.kind, s.store, s.cleaner.now).Keys, SetOf(s.cleaner.listed);
      assert s'.lost[imsi] == s.lost[imsi] + One(imsi in gone - listed);
      assert AboutToLose(cfg, s, imsi) <==> imsi in gone - listed;
    }
  }

  /** No more sessions of an IMSI are lost than were saved after their expiry had passed. */
  lemma {:induction false} OnlyStaleSavesAreLost(cfg: Config, s: State, es: seq<Event>, imsi: string)
    requires IsStart(s) && CanRun(cfg, s, es)
    ensures LossesAreStale(cfg, Reach(cfg, s, es), imsi)
    decreases |es|
  {
    if es != [] {
      var init, e := es[..|es| - 1], es[|es| - 1];
      OnlyStaleSavesAreLost(cfg, s, init, imsi);
      StartIsMutex(s);
      RunKeepsMutex(cfg, s, init);
      var t := Reach(cfg, s, init);
      match e
      case Pass(_) =>
      case Sweep(order) => SweepKeepsLosses(cfg, t, order, imsi);
      case Step(tid, input) => ThreadKeepsLosses(cfg, t, tid, input, imsi);
    }
  }

  /** So a session disappears without an "expired" record only by way of a save that came after its
      expiry: without such saves, the creations and the restored session never outnumber the expiries,
      pending or written, and the session stored. */
  lemma NoSilentDisappearance(cfg: Config, s: State, es: seq<Event>, imsi: string)
    requires IsStart(s) && CanRun(cfg, s, es)
    ensures var t := Reach(cfg, s, es);
            CountOf(t.log, imsi, Created) + One(imsi in s.store) <=
            CountOf(t.log, imsi, Expired) + ExpirePending(t, imsi) + CleanPending(t, imsi) + One(imsi in t.store)
            + t.stale[imsi]
  {
    BooksBalance(cfg, s, es, imsi);
    OnlyStaleSavesAreLost(cfg, s, es, imsi);
  }
}
