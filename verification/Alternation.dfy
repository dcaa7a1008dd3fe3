/** When the records of each IMSI alternate between "created" and "expired" although threads interleave. */
module Alternation {
  import opened Bcd
  import opened SessionTimes
  import S = Serialised
  import opened Interleaved
  import opened Conservation
  import opened Races
  import opened Levels

  function Records(log: seq<Entry>, imsi: string): seq<Action> {
    S.Records(log, imsi)
  }

  function Balance(log: seq<Entry>, imsi: string): int {
    CountOf(log, imsi, Created) - CountOf(log, imsi, Expired)
  }

  /** In every prefix of the log, creations and expiries are in balance, with the session restored at first or not. */
  predicate InStep(init: nat, log: seq<Entry>, imsi: string) {
    (log == [] || InStep(init, log[..|log| - 1], imsi)) && 0 <= init + Balance(log, imsi) <= 1
  }

  lemma AlternatesSnoc(stored: bool, a: seq<Action>, x: Action)
    ensures S.Alternates(stored, a + [x]) <==>
            S.Alternates(stored, a) && x == if (|a| % 2 == 0) == stored then Expired else Created
  {
    assert (a + [x])[|a|] == x && forall j | 0 <= j < |a| :: (a + [x])[j] == a[j];
  }

  /** Alternating is being in balance all the time. */
  lemma {:induction false} AlternatesIfInStep(stored: bool, log: seq<Entry>, imsi: string)
    ensures S.Alternates(stored, Records(log, imsi)) <==> InStep(One(stored), log, imsi)
    ensures S.Alternates(stored, Records(log, imsi)) ==>
              One(stored) + Balance(log, imsi) == One((|Records(log, imsi)| % 2 == 0) == stored)
  {
    if log != [] {
      var init, e := log[..|log| - 1], log[|log| - 1];
      assert log == init + [e];
      AlternatesIfInStep(stored, init, imsi);
      S.LogOne(init, e, imsi);
      if e.imsi == imsi {
        AlternatesSnoc(stored, Records(init, imsi), e.action);
      } else {
        assert Records(init, imsi) + [] == Records(init, imsi);
      }
    }
  }

  /** What the records of `imsi` are short of in a state, by its accounts. */
  function Owed(s: State, imsi: string): int {
    One(imsi in s.store) + s.lost[imsi] + ExpirePending(s, imsi) + CleanPending(s, imsi)
    - CreatePending(s, imsi) - s.revived[imsi] - s.surplus[imsi] - Listed(s, imsi)
  }

  lemma OwedIsBalance(cfg: Config, s: State, es: seq<Event>, imsi: string)
    requires IsStart(s) && CanRun(cfg, s, es)
    ensures One(imsi in s.store) + Balance(Reach(cfg, s, es).log, imsi) == Owed(Reach(cfg, s, es), imsi)
  {
    BooksBalance(cfg, s, es, imsi);
  }

  lemma LogGrowsByOne(cfg: Config, s: State, e: Event)
    ensures var log := Next(cfg, s, e).log;
            log == s.log || (|log| == |s.log| + 1 && log[..|s.log|] == s.log)
  {
    match e
    case Pass(_) =>
    case Sweep(_) =>
    case Step(_, _) =>
  }

  lemma InStepGrows(init: nat, log: seq<Entry>, log': seq<Entry>, imsi: string)
    requires log' == log || (|log'| == |log| + 1 && log'[..|log|] == log)
    ensures InStep(init, log', imsi) <==> InStep(init, log, imsi) && 0 <= init + Balance(log', imsi) <= 1
  {
  }

  /** After `es` and each of its prefixes, 0 or 1 is owed. */
  predicate AlwaysSettled(cfg: Config, s: State, es: seq<Event>, imsi: string) {
    (es == [] || AlwaysSettled(cfg, s, es[..|es| - 1], imsi)) && 0 <= Owed(Reach(cfg, s, es), imsi) <= 1
  }

  lemma {:induction false} InStepIfSettled(cfg: Config, s: State, es: seq<Event>, imsi: string)
    requires IsStart(s) && CanRun(cfg, s, es)
    ensures InStep(One(imsi in s.store), Reach(cfg, s, es).log, imsi) <==> AlwaysSettled(cfg, s, es, imsi)
    decreases |es|
  {
    OwedIsBalance(cfg, s, es, imsi);
    if es != [] {
      var init := es[..|es| - 1];
      var t := Reach(cfg, s, init);
      InStepIfSettled(cfg, s, init, imsi);
      LogGrowsByOne(cfg, t, es[|es| - 1]);
      InStepGrows(One(imsi in s.store), t.log, Reach(cfg, s, es).log, imsi);
    }
  }

  /** In every run the records of an IMSI alternate exactly when, after each prefix of the run, the session stored, the
      losses and the records to come, less the revivals and the vain removals, come to 0 or 1. */
  lemma AlternatesOverRun(cfg: Config, s: State, es: seq<Event>, imsi: string)
    requires IsStart(s) && CanRun(cfg, s, es)
    ensures S.Alternates(imsi in s.store, Records(Reach(cfg, s, es).log, imsi)) <==> AlwaysSettled(cfg, s, es, imsi)
  {
    AlternatesIfInStep(imsi in s.store, Reach(cfg, s, es).log, imsi);
    InStepIfSettled(cfg, s, es, imsi);
  }

  // Two expiries in a row.

  lemma TwiceExpired(stored: bool, log: seq<Entry>, at: nat, again: nat, imsi: string)
    ensures !S.Alternates(stored, Records(log + [Entry(at, imsi, Expired)] + [Entry(again, imsi, Expired)], imsi))
  {
    var once := log + [Entry(at, imsi, Expired)];
    S.LogOne(log, Entry(at, imsi, Expired), imsi);
    S.LogOne(once, Entry(again, imsi, Expired), imsi);
    AlternatesSnoc(stored, Records(log, imsi), Expired);
    AlternatesSnoc(stored, Records(once, imsi), Expired);
  }

  /** The cleaner lists the one session there is, and records its expiry. */
  lemma RecordsOnly(cfg: Config, s: State, imsi: string)
    requires s.cleaner == CleanNow && s.store.Keys == {imsi} && s.store[imsi].expires < s.clock
    ensures Leads(cfg, s, [Sweep([]), Sweep([imsi]), Sweep([])],
                  s.(cleaner := CleanRecord(s.clock, [imsi], 1), log := s.log + [Entry(s.clock, imsi, Expired)]))
  {
    var s1 := s.(cleaner := CleanLoad(s.clock));
    var s2 := s.(cleaner := CleanRecord(s.clock, [imsi], 0));
    var s3 := s.(cleaner := CleanRecord(s.clock, [imsi], 1), log := s.log + [Entry(s.clock, imsi, Expired)]);
    assert ExpiredPart(cfg.kind, s.store, s.clock).Keys == {imsi};
    TraceLeads(cfg, [s, s1, s2, s3], [Sweep([]), Sweep([imsi]), Sweep([])]);
  }

  /** Its deletion, if the session was refreshed in between. */
  lemma DeletesNothing(cfg: Config, s: State, now: nat, imsi: string)
    requires s.cleaner == CleanRecord(now, [imsi], 1) && s.store.Keys == {imsi} && now < s.store[imsi].expires
    ensures Leads(cfg, s, [Sweep([])], s.(cleaner := CleanNow, surplus := s.surplus + multiset{imsi}))
  {
    RunOne(cfg, s, Sweep([]));
    assert ExpiredPart(cfg.kind, s.store, now).Keys == {} && Unexpired(cfg.kind, s.store, now) == s.store;
    assert SetOf([imsi]) - {} == {imsi} && {} - SetOf([imsi]) == {};
  }

  /** The worker `tid` is at its start, and the mutex is free. */
  predicate Calm(s: State, tid: nat) {
    tid < |s.threads| && s.threads[tid] == UdpLoop && s.running && s.lock == []
  }

  /** The cleaner has recorded the expiry of the one session there is, and is about to delete it. */
  predicate HasRecorded(s: State, imsi: string) {
    && s.cleaner.CleanRecord? && s.cleaner == CleanRecord(s.cleaner.now, [imsi], 1) && s.cleaner.now == s.clock
    && s.store.Keys == {imsi}
    && s.log != [] && s.log[|s.log| - 1] == Entry(s.clock, imsi, Expired)
  }

  /** With the store holding just the session that `tid` last saved, time passes and the cleaner records its expiry. */
  lemma TimeOutRecorded(cfg: Config, s: State, tid: nat, imsi: string) returns (es: seq<Event>)
    requires Calm(s, tid) && s.cleaner == CleanNow && s.store.Keys == {imsi}
    ensures CanRun(cfg, s, es) && Calm(Reach(cfg, s, es), tid) && HasRecorded(Reach(cfg, s, es), imsi)
    ensures Reach(cfg, s, es).log == s.log + [Entry(Reach(cfg, s, es).clock, imsi, Expired)]
  {
    var wait := s.store[imsi].expires + 1;
    var t := s.(clock := s.clock + wait);
    var sweeps := [Sweep([]), Sweep([imsi]), Sweep([])];
    Passes(cfg, s, wait);
    RecordsOnly(cfg, t, imsi);
    RunConcat(cfg, s, [Pass(wait)], sweeps);
    es := [Pass(wait)] + sweeps;
  }

  /** A refresh between the record and the deletion keeps the session. */
  lemma RefreshSurvives(cfg: Config, s: State, tid: nat, bytes: seq<Byte>) returns (es: seq<Event>)
    requires Calm(s, tid) && HasRecorded(s, Decode(Received(bytes)))
    requires bytes != [] && Decode(Received(bytes)) !in cfg.blocked
    ensures var imsi, t := Decode(Received(bytes)), Reach(cfg, s, es);
            && CanRun(cfg, s, es) && Calm(t, tid) && t.cleaner == CleanNow && t.store.Keys == {imsi}
            && t.log == s.log
  {
    var imsi := Decode(Received(bytes));
    var s1 := s.(clock := s.clock + 1);
    Passes(cfg, s, 1);
    var touch := TouchIsAtomic(cfg, s1, tid, bytes);
    var s2 := Reach(cfg, s1, touch);
    assert s2.log == s.log + [];
    DeletesNothing(cfg, s2, s.clock, imsi);
    RunConcat(cfg, s, [Pass(1)], touch);
    RunConcat(cfg, s, [Pass(1)] + touch, [Sweep([])]);
    es := [Pass(1)] + touch + [Sweep([])];
  }

  /** One worker and the cleaner are enough: a refresh between the cleaner's record and its deletion keeps a session
      that the log has as expired, and when it times out the cleaner records it as expired again. */
  lemma RefreshRace(cfg: Config, s: State, tid: nat, bytes: seq<Byte>) returns (es: seq<Event>)
    requires Calm(s, tid) && s.cleaner == CleanNow && s.store == map[]
    requires bytes != [] && Decode(Received(bytes)) !in cfg.blocked
    ensures CanRun(cfg, s, es)
    ensures exists log, at, again :: Reach(cfg, s, es).log ==
              log + [Entry(at, Decode(Received(bytes)), Expired)] + [Entry(again, Decode(Received(bytes)), Expired)]
  {
    var imsi := Decode(Received(bytes));
    var create := TouchIsAtomic(cfg, s, tid, bytes);
    var s1 := Reach(cfg, s, create);
    assert s1.store.Keys == {imsi};
    var expire := TimeOutRecorded(cfg, s1, tid, imsi);
    var s2 := Reach(cfg, s1, expire);
    var refresh := RefreshSurvives(cfg, s2, tid, bytes);
    var s3 := Reach(cfg, s2, refresh);
    var expireAgain := TimeOutRecorded(cfg, s3, tid, imsi);
    RunConcat(cfg, s, create, expire);
    RunConcat(cfg, s, create + expire, refresh);
    RunConcat(cfg, s, create + expire + refresh, expireAgain);
    es := create + expire + refresh + expireAgain;
    var s4 := Reach(cfg, s3, expireAgain);
    assert s4.log == s1.log + [Entry(s2.clock, imsi, Expired)] + [Entry(s4.clock, imsi, Expired)];
  }

  /** This happens in a run from the start, whatever the timeout, the store and the sessions restored. */
  lemma RefreshRaceFromTheStart(cfg: Config, s: State, tid: nat, bytes: seq<Byte>) returns (es: seq<Event>)
    requires IsStart(s) && tid < |s.threads| && s.threads[tid] == UdpLoop
    requires bytes != [] && Decode(Received(bytes)) !in cfg.blocked
    ensures var imsi := Decode(Received(bytes));
            CanRun(cfg, s, es) && !S.Alternates(imsi in s.store, Records(Reach(cfg, s, es).log, imsi))
  {
    var imsi := Decode(Received(bytes));
    var order := SomeOrder(s.store.Keys);
    var early, later := RoundRemovesAll(cfg, s, order);
    var t := Reach(cfg, s, early);
    var late := RefreshRace(cfg, t, tid, bytes);
    RunConcat(cfg, s, early, late);
    es := early + late;
    var log, at, again :| Reach(cfg, t, late).log == log + [Entry(at, imsi, Expired)] + [Entry(again, imsi, Expired)];
    TwiceExpired(imsi in s.store, log, at, again, imsi);
  }

  /** One stop handler and the cleaner are enough too: a restored session that the handler has chosen may time out
      before its removal, and then both record its expiry. */
  lemma OffloadRaceFromTheStart(cfg: Config, s: State, tid: nat, imsi: string) returns (es: seq<Event>)
    requires IsStart(s) && tid < |s.threads| && s.threads[tid] == StopUdp
    requires cfg.rate >= 1 && imsi in Active(s.store, s.clock)
    ensures CanRun(cfg, s, es) && !S.Alternates(imsi in s.store, Records(Reach(cfg, s, es).log, imsi))
  {
    var early := StopToLock(cfg, s, tid, imsi);
    var t := s.(running := false, threads := s.threads[tid := OffLock(imsi, 0)]);
    var init := SomeOrder(s.store.Keys - {imsi});
    var order := init + [imsi];
    var middle, later := RoundRemovesAll(cfg, t, order);
    var u := t.(clock := later, store := map[], log := S.WithExpiries(t.log, order, later));
    assert order[..|init|] == init;
    OffloadLands(cfg, u, tid);
    LeadsChain(cfg, s, early, t, middle, u);
    LeadsChain(cfg, s, early + middle, u, Moves(tid, 4), Removed(u, tid));
    es := early + middle + Moves(tid, 4);
    TwiceExpired(imsi in s.store, S.WithExpiries(t.log, init, later), later, later, imsi);
  }

  /** Two stop handlers may also choose the same session. */
  lemma TwoStopsFromTheStart(cfg: Config, s: State, a: nat, b: nat, imsi: string) returns (es: seq<Event>)
    requires IsStart(s) && a < |s.threads| && b < |s.threads| && a != b
    requires s.threads[a] == StopUdp && s.threads[b] == StopUdp
    requires cfg.rate >= 1 && imsi in Active(s.store, s.clock)
    ensures CanRun(cfg, s, es)
    ensures Reach(cfg, s, es).log == [Entry(s.clock, imsi, Expired), Entry(s.clock, imsi, Expired)]
  {
    var t := s.(running := false, threads := s.threads[a := OffLock(imsi, 0)]);
    var u := t.(running := false, threads := t.threads[b := OffLock(imsi, 0)]);
    var first := StopToLock(cfg, s, a, imsi);
    var second := StopToLock(cfg, t, b, imsi);
    LeadsChain(cfg, s, first, t, second, u);
    TwoStopsRecordTwice(cfg, u, a, b);
    RunConcat(cfg, s, first + second, Moves(a, 4) + Moves(b, 4));
    es := first + second + (Moves(a, 4) + Moves(b, 4));
  }

  // Where nothing of the kind can happen.

  /** At the start: a touch can come, or a stop handler will find a session to offload. */
  ghost predicate CanRace(cfg: Config, s: State) {
    || CanTouch(cfg, s)
    || (cfg.rate >= 1 && !NoneActive(s) && exists i | 0 <= i < |s.threads| :: s.threads[i] == StopUdp)
  }

  /** The thread is not offloading, and will not begin to. */
  predicate NoOffload(cfg: Config, s: State, t: Thread) {
    || t == UdpLoop || t == UdpReceive || t == UdpDone || t == StopDone
    || ((t == StopUdp || t == StopCheck) && (cfg.rate == 0 || NoneActive(s)))
  }

  /** Only the cleaner changes the store, and what it has listed is still right. */
  ghost predicate OnlyCleaner(cfg: Config, s: State) {
    && NoTouch(cfg, s) && (forall i | 0 <= i < |s.threads| :: NoOffload(cfg, s, s.threads[i]))
    && s.lock == [] && s.lost == multiset{} && s.revived == multiset{} && s.surplus == multiset{}
    && (s.cleaner.CleanRecord? ==> Enumerates(s.cleaner.listed, ExpiredPart(cfg.kind, s.store, s.cleaner.now).Keys))
  }

  lemma OtherStepKeepsOnlyCleaner(cfg: Config, s: State, tid: nat, input: Input)
    requires OnlyCleaner(cfg, s) && CanHappen(cfg, s, Step(tid, input))
    ensures OnlyCleaner(cfg, ThreadStep(cfg, s, tid, input))
  {
    assert NoOffload(cfg, s, s.threads[tid]);
    NextKeepsNoTouch(cfg, s, Step(tid, input));
  }

  lemma SweepKeepsOnlyCleaner(cfg: Config, s: State, order: seq<string>)
    requires OnlyCleaner(cfg, s) && CanHappen(cfg, s, Sweep(order))
    ensures OnlyCleaner(cfg, SweepStep(cfg, s, order))
  {
    NextKeepsNoTouch(cfg, s, Sweep(order));
    if s.cleaner.CleanRecord? {
      assert SetOf(s.cleaner.listed) == ExpiredPart(cfg.kind, s.store, s.cleaner.now).Keys;
    }
  }

  lemma {:induction false} RunKeepsOnlyCleaner(cfg: Config, s: State, es: seq<Event>)
    requires OnlyCleaner(cfg, s) && CanRun(cfg, s, es)
    ensures OnlyCleaner(cfg, Reach(cfg, s, es))
  {
    if es != [] {
      var init, e := es[..|es| - 1], es[|es| - 1];
      RunKeepsOnlyCleaner(cfg, s, init);
      var t := Reach(cfg, s, init);
      match e
      case Pass(_) => NextKeepsNoTouch(cfg, t, e);
      case Sweep(order) => SweepKeepsOnlyCleaner(cfg, t, order);
      case Step(tid, input) => OtherStepKeepsOnlyCleaner(cfg, t, tid, input);
    }
  }

  lemma OnlyCleanerOwesAtMostOne(cfg: Config, s: State, imsi: string)
    requires OnlyCleaner(cfg, s)
    ensures 0 <= Owed(s, imsi) <= 1
  {
  }

  lemma {:induction false} QuietServerSettled(cfg: Config, s: State, es: seq<Event>, imsi: string)
    requires OnlyCleaner(cfg, s) && CanRun(cfg, s, es)
    ensures AlwaysSettled(cfg, s, es, imsi)
  {
    RunKeepsOnlyCleaner(cfg, s, es);
    OnlyCleanerOwesAtMostOne(cfg, Reach(cfg, s, es), imsi);
    if es != [] {
      QuietServerSettled(cfg, s, es[..|es| - 1], imsi);
    }
  }

  /** The records of every IMSI alternate in every run of a server, whatever its threads interleave, exactly when the
      server touches nothing and offloads nothing: when no packet is let in or there is no worker to take it, and no
      stop handler finds a restored session active. */
  lemma AlternatesExactly(cfg: Config, s: State)
    requires IsStart(s)
    ensures (forall es, imsi | CanRun(cfg, s, es) ::
               S.Alternates(imsi in s.store, Records(Reach(cfg, s, es).log, imsi))) <==>
            !CanRace(cfg, s)
  {
    if CanTouch(cfg, s) {
      var b: seq<Byte> :| b != [] && Decode(Received(b)) !in cfg.blocked;
      var i :| 0 <= i < |s.threads| && s.threads[i] == UdpLoop;
      var es := RefreshRaceFromTheStart(cfg, s, i, b);
    } else if CanRace(cfg, s) {
      var i :| 0 <= i < |s.threads| && s.threads[i] == StopUdp;
      var k :| k in s.store && s.clock < s.store[k].expires;
      var es := OffloadRaceFromTheStart(cfg, s, i, k);
    } else {
      StartTouchesNothing(cfg, s);
      forall es, imsi | CanRun(cfg, s, es)
        ensures S.Alternates(imsi in s.store, Records(Reach(cfg, s, es).log, imsi))
      {
        QuietServerSettled(cfg, s, es, imsi);
        AlternatesOverRun(cfg, s, es, imsi);
      }
    }
  }
}
