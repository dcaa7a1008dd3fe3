/** The session manager with every operation and every cleaner round atomic, over integer time. */
module Serialised {
  import opened SessionStores
  import opened SessionTimes

  datatype State = State(store: Sessions, log: seq<Entry>, clock: nat)

  datatype Event =
    | Touch(imsi: string)
    | Offload(imsi: string)          // one turn of offload_rate, with the session it chose
    | Clean(order: seq<string>)      // one cleaner round, with the order in which the store listed
    | Tick(seconds: nat)

  /** The log after an "expired" record for each of `order`, in that order. */
  function WithExpiries(log: seq<Entry>, order: seq<string>, at: nat): seq<Entry> {
    if order == [] then log
    else WithExpiries(log, order[..|order| - 1], at) + [Entry(at, order[|order| - 1], Expired)]
  }

  predicate Enabled(kind: StoreKind, s: State, e: Event) {
    match e
    case Touch(_) => true
    case Offload(imsi) => imsi in Active(s.store, s.clock)
    case Clean(order) => Enumerates(order, ExpiredPart(kind, s.store, s.clock).Keys)
    case Tick(_) => true
  }

  function Apply(kind: StoreKind, timeout: nat, s: State, e: Event): State {
    match e
    case Touch(imsi) =>
      s.(store := s.store[imsi := Session(s.clock, s.clock + timeout)],
         log := s.log + if imsi in s.store then [] else [Entry(s.clock, imsi, Created)])
    case Offload(imsi) =>
      s.(store := s.store - {imsi}, log := s.log + [Entry(s.clock, imsi, Expired)])
    case Clean(order) =>
      s.(store := Unexpired(kind, s.store, s.clock), log := WithExpiries(s.log, order, s.clock))
    case Tick(seconds) => s.(clock := s.clock + seconds)
  }

  function After(kind: StoreKind, timeout: nat, s: State, es: seq<Event>): State {
    if es == [] then s
    else Apply(kind, timeout, After(kind, timeout, s, es[..|es| - 1]), es[|es| - 1])
  }

  /** Every event of `es` is possible when its turn comes. */
  predicate Runs(kind: StoreKind, timeout: nat, s: State, es: seq<Event>) {
    es == [] ||
    (Runs(kind, timeout, s, es[..|es| - 1])
     && Enabled(kind, After(kind, timeout, s, es[..|es| - 1]), es[|es| - 1]))
  }

  lemma RunSnoc(kind: StoreKind, timeout: nat, s: State, es: seq<Event>, e: Event)
    ensures After(kind, timeout, s, es + [e]) == Apply(kind, timeout, After(kind, timeout, s, es), e)
    ensures Runs(kind, timeout, s, es + [e]) <==>
            Runs(kind, timeout, s, es) && Enabled(kind, After(kind, timeout, s, es), e)
  {
    assert (es + [e])[..|es|] == es;
  }

  // The view of subscribers: the sessions that is_active can see.

  function View(s: State): Sessions {
    Active(s.store, s.clock)
  }

  /** What an event does to the view. Cleaner rounds do nothing, and the kind of store plays no part. */
  function ViewAfter(timeout: nat, view: Sessions, clock: nat, e: Event): Sessions {
    match e
    case Touch(imsi) => if timeout > 0 then view[imsi := Session(clock, clock + timeout)] else view - {imsi}
    case Offload(imsi) => view - {imsi}
    case Clean(_) => view
    case Tick(seconds) => Active(view, clock + seconds)
  }

  lemma ViewStep(kind: StoreKind, timeout: nat, s: State, e: Event)
    requires Enabled(kind, s, e)
    ensures View(Apply(kind, timeout, s, e)) == ViewAfter(timeout, View(s), s.clock, e)
  {
  }

  function WithoutCleaner(es: seq<Event>): (fs: seq<Event>)
    ensures |fs| <= |es|
  {
    if es == [] then []
    else WithoutCleaner(es[..|es| - 1]) + (if es[|es| - 1].Clean? then [] else [es[|es| - 1]])
  }

  predicate LooksLike(s: State, t: State) {
    View(s) == View(t) && s.clock == t.clock
  }

  /** A cleaner round changes nothing that subscribers see. */
  lemma RoundIsInvisible(kind: StoreKind, timeout: nat, s: State, t: State, e: Event)
    requires LooksLike(s, t) && Enabled(kind, s, e) && e.Clean?
    ensures LooksLike(Apply(kind, timeout, s, e), t)
  {
    ViewStep(kind, timeout, s, e);
  }

  /** Any other event can happen wherever subscribers see the same, and they see the same after it. */
  lemma EventLooksAlike(kind: StoreKind, other: StoreKind, timeout: nat, s: State, t: State, e: Event)
    requires LooksLike(s, t) && Enabled(kind, s, e) && !e.Clean?
    ensures Enabled(other, t, e)
    ensures LooksLike(Apply(kind, timeout, s, e), Apply(other, timeout, t, e))
  {
    ViewStep(kind, timeout, s, e);
    ViewStep(other, timeout, t, e);
  }

  /** Any run, on either store, shows subscribers what the same run without any cleaner round shows
      them on any store; and that run is possible. */
  lemma {:induction false} CleanerIsInvisible(kind: StoreKind, other: StoreKind, timeout: nat, s: State, t: State,
                                              es: seq<Event>)
    requires Runs(kind, timeout, s, es) && LooksLike(s, t)
    ensures Runs(other, timeout, t, WithoutCleaner(es))
    ensures LooksLike(After(kind, timeout, s, es), After(other, timeout, t, WithoutCleaner(es)))
    decreases |es|
  {
    if es != [] {
      var init, e := es[..|es| - 1], es[|es| - 1];
      CleanerIsInvisible(kind, other, timeout, s, t, init);
      var plain := WithoutCleaner(init);
      var before, before' := After(kind, timeout, s, init), After(other, timeout, t, plain);
      if e.Clean? {
        assert WithoutCleaner(es) == plain;
        RoundIsInvisible(kind, timeout, before, before', e);
      } else {
        assert WithoutCleaner(es) == plain + [e];
        EventLooksAlike(kind, other, timeout, before, before', e);
        RunSnoc(other, timeout, t, plain, e);
      }
    }
  }

  /** Two runs with the same touches, offloads and clock, but any two cleaner schedules and any two
      stores, end with the same active sessions, down to their time stamps. */
  lemma StoresAndSchedulesLookAlike(kind: StoreKind, other: StoreKind, timeout: nat, s: State, t: State,
                                    es: seq<Event>, fs: seq<Event>)
    requires Runs(kind, timeout, s, es) && Runs(other, timeout, t, fs) && LooksLike(s, t)
    requires WithoutCleaner(es) == WithoutCleaner(fs)
    ensures LooksLike(After(kind, timeout, s, es), After(other, timeout, t, fs))
  {
    CleanerIsInvisible(kind, kind, timeout, s, s, es);
    CleanerIsInvisible(other, kind, timeout, t, s, fs);
  }

  // What is_active answers, told from the history of events alone.

  function ClockAfter(start: nat, es: seq<Event>): nat {
    if es == [] then start
    else ClockAfter(start, es[..|es| - 1]) + (if es[|es| - 1].Tick? then es[|es| - 1].seconds else 0)
  }

  predicate Concerns(e: Event, imsi: string) {
    e == Touch(imsi) || e == Offload(imsi)
  }

  /** The last event about `imsi` is a touch, at position `u`. */
  predicate LastIsTouch(es: seq<Event>, imsi: string, u: nat) {
    u < |es| && es[u] == Touch(imsi) && forall j | u < j < |es| :: !Concerns(es[j], imsi)
  }

  predicate TouchedInTime(timeout: nat, start: nat, es: seq<Event>, imsi: string, now: nat) {
    exists u: nat | u < |es| :: LastIsTouch(es, imsi, u) && now < ClockAfter(start, es[..u]) + timeout
  }

  predicate RestoredInTime(restored: Sessions, es: seq<Event>, imsi: string, now: nat) {
    (forall j | 0 <= j < |es| :: !Concerns(es[j], imsi)) && imsi in restored && now < restored[imsi].expires
  }

  lemma {:induction false} ClockOfRun(kind: StoreKind, timeout: nat, s: State, es: seq<Event>)
    requires Runs(kind, timeout, s, es)
    ensures After(kind, timeout, s, es).clock == ClockAfter(s.clock, es)
    decreases |es|
  {
    if es != [] {
      ClockOfRun(kind, timeout, s, es[..|es| - 1]);
    }
  }

  lemma LastTouchSnoc(es: seq<Event>, e: Event, imsi: string, u: nat)
    ensures LastIsTouch(es + [e], imsi, u) <==>
            (u == |es| && e == Touch(imsi)) || (!Concerns(e, imsi) && LastIsTouch(es, imsi, u))
  {
    var all := es + [e];
    assert all[|es|] == e && forall j | 0 <= j < |es| :: all[j] == es[j];
  }

  lemma TouchedSnoc(timeout: nat, start: nat, es: seq<Event>, e: Event, imsi: string, now: nat)
    ensures TouchedInTime(timeout, start, es + [e], imsi, now) <==>
            (e == Touch(imsi) && now < ClockAfter(start, es) + timeout)
            || (!Concerns(e, imsi) && TouchedInTime(timeout, start, es, imsi, now))
  {
    var all := es + [e];
    assert all[..|es|] == es && forall u: nat | u < |es| :: all[..u] == es[..u];
    forall u: nat | u < |all|
      ensures LastIsTouch(all, imsi, u) <==>
              (u == |es| && e == Touch(imsi)) || (!Concerns(e, imsi) && LastIsTouch(es, imsi, u))
    {
      LastTouchSnoc(es, e, imsi, u);
    }
    if e == Touch(imsi) {
      assert LastIsTouch(all, imsi, |es|);
    } else if !Concerns(e, imsi) && TouchedInTime(timeout, start, es, imsi, now) {
      var u: nat :| u < |es| && LastIsTouch(es, imsi, u) && now < ClockAfter(start, es[..u]) + timeout;
      assert LastIsTouch(all, imsi, u);
    }
  }

  lemma RestoredSnoc(restored: Sessions, es: seq<Event>, e: Event, imsi: string, now: nat)
    ensures RestoredInTime(restored, es + [e], imsi, now) <==>
            !Concerns(e, imsi) && RestoredInTime(restored, es, imsi, now)
  {
    var all := es + [e];
    assert all[|es|] == e && forall j | 0 <= j < |es| :: all[j] == es[j];
  }

  /** At any time from the end of the run on, a session is unexpired exactly when the history says so. */
  lemma {:induction false} HistoryDecides(kind: StoreKind, timeout: nat, s: State, es: seq<Event>,
                                          imsi: string, now: nat)
    requires Runs(kind, timeout, s, es) && After(kind, timeout, s, es).clock <= now
    ensures var t := After(kind, timeout, s, es);
            imsi in t.store && now < t.store[imsi].expires <==>
            TouchedInTime(timeout, s.clock, es, imsi, now) || RestoredInTime(s.store, es, imsi, now)
    decreases |es|
  {
    if es != [] {
      var init, e := es[..|es| - 1], es[|es| - 1];
      assert es == init + [e];
      HistoryDecides(kind, timeout, s, init, imsi, now);
      ClockOfRun(kind, timeout, s, init);
      TouchedSnoc(timeout, s.clock, init, e, imsi, now);
      RestoredSnoc(s.store, init, e, imsi, now);
    }
  }

  /** After any run, an IMSI is active exactly when the last event about it is a touch less than
      `timeout` seconds ago, or there is no such event and it was restored with a later expiry. */
  lemma ActiveExactlyByHistory(kind: StoreKind, timeout: nat, s: State, es: seq<Event>, imsi: string)
    requires Runs(kind, timeout, s, es)
    ensures var now := ClockAfter(s.clock, es);
            imsi in View(After(kind, timeout, s, es)) <==>
            TouchedInTime(timeout, s.clock, es, imsi, now) || RestoredInTime(s.store, es, imsi, now)
  {
    ClockOfRun(kind, timeout, s, es);
    HistoryDecides(kind, timeout, s, es, imsi, ClockAfter(s.clock, es));
  }

  // The log.

  function Records(log: seq<Entry>, imsi: string): seq<Action> {
    if log == [] then []
    else Records(log[..|log| - 1], imsi) + (if log[|log| - 1].imsi == imsi then [log[|log| - 1].action] else [])
  }

  /** created, expired, created, ... for an IMSI that was not stored at first; expired, created, ... otherwise. */
  predicate Alternates(stored: bool, a: seq<Action>) {
    forall j | 0 <= j < |a| :: a[j] == if (j % 2 == 0) == stored then Expired else Created
  }

  function Count(log: seq<Entry>, action: Action): nat {
    if log == [] then 0
    else Count(log[..|log| - 1], action) + (if log[|log| - 1].action == action then 1 else 0)
  }

  /** The records of `imsi` alternate, and it is stored exactly when the last of them is "created". */
  predicate Matches(a: seq<Action>, stored: bool) {
    Alternates(false, a) && (stored <==> a != [] && a[|a| - 1] == Created)
  }

  ghost predicate LogMatchesStore(s: State) {
    && (forall imsi :: Matches(Records(s.log, imsi), imsi in s.store))
    && CountsMatch(s)
  }

  lemma LogOne(log: seq<Entry>, e: Entry, imsi: string)
    ensures Records(log + [e], imsi) == Records(log, imsi) + if e.imsi == imsi then [e.action] else []
    ensures Count(log + [e], Created) == Count(log, Created) + if e.action == Created then 1 else 0
    ensures Count(log + [e], Expired) == Count(log, Expired) + if e.action == Expired then 1 else 0
  {
    assert (log + [e])[..|log|] == log;
  }

  lemma {:induction false} LogExpiries(log: seq<Entry>, order: seq<string>, at: nat)
    ensures Count(WithExpiries(log, order, at), Created) == Count(log, Created)
    ensures Count(WithExpiries(log, order, at), Expired) == Count(log, Expired) + |order|
  {
    if order != [] {
      var init, last := order[..|order| - 1], order[|order| - 1];
      LogExpiries(log, init, at);
      LogOne(WithExpiries(log, init, at), Entry(at, last, Expired), last);
    }
  }

  lemma {:induction false} LogExpiryOf(log: seq<Entry>, order: seq<string>, at: nat, imsi: string)
    requires forall i, j | 0 <= i < j < |order| :: order[i] != order[j]
    ensures Records(WithExpiries(log, order, at), imsi) == Records(log, imsi) + if imsi in order then [Expired] else []
  {
    if order != [] {
      var init, last := order[..|order| - 1], order[|order| - 1];
      assert order == init + [last];
      LogExpiryOf(log, init, at, imsi);
      LogOne(WithExpiries(log, init, at), Entry(at, last, Expired), imsi);
    }
  }

  lemma {:induction false} EnumerationLength(order: seq<string>, keys: set<string>)
    requires Enumerates(order, keys)
    ensures |order| == |keys|
  {
    if order == [] {
      assert keys == {};
    } else {
      var init, last := order[..|order| - 1], order[|order| - 1];
      assert order == init + [last];
      EnumerationLength(init, keys - {last});
    }
  }

  lemma ExpirySplitsStore(kind: StoreKind, store: Sessions, now: nat)
    ensures |ExpiredPart(kind, store, now).Keys| + |Unexpired(kind, store, now)| == |store|
  {
    var gone, kept := ExpiredPart(kind, store, now).Keys, Unexpired(kind, store, now).Keys;
    assert store.Keys == gone + kept && gone !! kept;
  }

  /** The records about `imsi` that an event adds. */
  function NewRecords(kind: StoreKind, s: State, e: Event, imsi: string): seq<Action> {
    match e
    case Touch(i) => if i == imsi && i !in s.store then [Created] else []
    case Offload(i) => if i == imsi then [Expired] else []
    case Clean(_) => if imsi in ExpiredPart(kind, s.store, s.clock) then [Expired] else []
    case Tick(_) => []
  }

  lemma RecordsStep(kind: StoreKind, timeout: nat, s: State, e: Event, imsi: string)
    requires Enabled(kind, s, e)
    ensures Records(Apply(kind, timeout, s, e).log, imsi) == Records(s.log, imsi) + NewRecords(kind, s, e, imsi)
  {
    match e
    case Touch(i) => LogOne(s.log, Entry(s.clock, i, Created), imsi); assert s.log + [] == s.log;
    case Offload(i) => LogOne(s.log, Entry(s.clock, i, Expired), imsi);
    case Clean(order) => LogExpiryOf(s.log, order, s.clock, imsi);
    case Tick(_) =>
  }

  lemma AlternationGoesOn(a: seq<Action>, stored: bool, next: Action)
    requires Matches(a, stored) && next == if stored then Expired else Created
    ensures Matches(a + [next], !stored)
  {
    assert stored <==> |a| % 2 == 1;
  }

  lemma MatchesStep(kind: StoreKind, timeout: nat, s: State, e: Event, imsi: string)
    requires Enabled(kind, s, e) && Matches(Records(s.log, imsi), imsi in s.store)
    ensures var t := Apply(kind, timeout, s, e); Matches(Records(t.log, imsi), imsi in t.store)
  {
    RecordsStep(kind, timeout, s, e, imsi);
    var a, more := Records(s.log, imsi), NewRecords(kind, s, e, imsi);
    if more == [] {
      assert a + more == a;
    } else {
      AlternationGoesOn(a, imsi in s.store, more[0]);
    }
  }

  /** Creations minus expiries is the size of the store. */
  predicate CountsMatch(s: State) {
    Count(s.log, Created) == Count(s.log, Expired) + |s.store|
  }

  lemma CountTouch(kind: StoreKind, timeout: nat, s: State, imsi: string)
    requires CountsMatch(s)
    ensures CountsMatch(Apply(kind, timeout, s, Touch(imsi)))
  {
    LogOne(s.log, Entry(s.clock, imsi, Created), imsi);
    assert s.log + [] == s.log;
    assert Apply(kind, timeout, s, Touch(imsi)).store.Keys == s.store.Keys + {imsi};
  }

  lemma CountOffload(kind: StoreKind, timeout: nat, s: State, imsi: string)
    requires Enabled(kind, s, Offload(imsi)) && CountsMatch(s)
    ensures CountsMatch(Apply(kind, timeout, s, Offload(imsi)))
  {
    LogOne(s.log, Entry(s.clock, imsi, Expired), imsi);
    assert Apply(kind, timeout, s, Offload(imsi)).store.Keys == s.store.Keys - {imsi};
  }

  lemma CountClean(kind: StoreKind, timeout: nat, s: State, order: seq<string>)
    requires Enabled(kind, s, Clean(order)) && CountsMatch(s)
    ensures CountsMatch(Apply(kind, timeout, s, Clean(order)))
  {
    LogExpiries(s.log, order, s.clock);
    EnumerationLength(order, ExpiredPart(kind, s.store, s.clock).Keys);
    ExpirySplitsStore(kind, s.store, s.clock);
  }

  lemma CountStep(kind: StoreKind, timeout: nat, s: State, e: Event)
    requires Enabled(kind, s, e) && CountsMatch(s)
    ensures CountsMatch(Apply(kind, timeout, s, e))
  {
    match e
    case Touch(imsi) => CountTouch(kind, timeout, s, imsi);
    case Offload(imsi) => CountOffload(kind, timeout, s, imsi);
    case Clean(order) => CountClean(kind, timeout, s, order);
    case Tick(_) =>
  }

  /** From an empty store and log, every run keeps each IMSI's records alternating, created first; an
      IMSI is stored exactly when its last record is "created"; and the creations outnumber the
      expiries by the size of the store. */
  lemma {:induction false} LogAlternates(kind: StoreKind, timeout: nat, s: State, es: seq<Event>)
    requires Runs(kind, timeout, s, es) && LogMatchesStore(s)
    ensures LogMatchesStore(After(kind, timeout, s, es))
    decreases |es|
  {
    if es != [] {
      var init, e := es[..|es| - 1], es[|es| - 1];
      LogAlternates(kind, timeout, s, init);
      var t := After(kind, timeout, s, init);
      forall imsi
        ensures var t' := Apply(kind, timeout, t, e); Matches(Records(t'.log, imsi), imsi in t'.store)
      {
        MatchesStep(kind, timeout, t, e, imsi);
      }
      CountStep(kind, timeout, t, e);
    }
  }

  lemma EmptyLogMatches(clock: nat)
    ensures LogMatchesStore(State(map[], [], clock))
  {
  }

  // Time stamps.

  /** A session is as restored, or was stamped by one touch since. */
  predicate Stamped(timeout: nat, s: State, t: State, k: string)
    requires k in t.store
  {
    var x := t.store[k];
    (k in s.store && s.store[k] == x) || (s.clock <= x.created <= t.clock && x.expires == x.created + timeout)
  }

  predicate AllStamped(timeout: nat, s: State, t: State) {
    s.clock <= t.clock && forall k | k in t.store :: Stamped(timeout, s, t, k)
  }

  lemma StepStamps(kind: StoreKind, timeout: nat, s: State, t: State, e: Event)
    requires AllStamped(timeout, s, t)
    ensures AllStamped(timeout, s, Apply(kind, timeout, t, e))
  {
    var t' := Apply(kind, timeout, t, e);
    forall k | k in t'.store
      ensures Stamped(timeout, s, t', k)
    {
      assert k in t.store ==> Stamped(timeout, s, t, k);
    }
  }

  lemma {:induction false} SessionsAreStamped(kind: StoreKind, timeout: nat, s: State, es: seq<Event>)
    ensures AllStamped(timeout, s, After(kind, timeout, s, es))
    decreases |es|
  {
    if es != [] {
      SessionsAreStamped(kind, timeout, s, es[..|es| - 1]);
      StepStamps(kind, timeout, s, After(kind, timeout, s, es[..|es| - 1]), es[|es| - 1]);
    }
  }

  /** A session was not restored with an expiry further ahead than one timeout. */
  predicate NotBeyondTimeout(timeout: nat, s: State, k: string) {
    k in s.store ==> s.store[k].expires <= s.clock + timeout
  }

  lemma ExpiryStep(kind: StoreKind, timeout: nat, s: State, es: seq<Event>, e: Event, k: string)
    requires Runs(kind, timeout, s, es + [e]) && NotBeyondTimeout(timeout, s, k)
    ensures Runs(kind, timeout, s, es)
    ensures var t, t' := After(kind, timeout, s, es), After(kind, timeout, s, es + [e]);
            k in t.store && k in t'.store ==> t.store[k].expires <= t'.store[k].expires
  {
    RunSnoc(kind, timeout, s, es, e);
    SessionsAreStamped(kind, timeout, s, es);
    var t := After(kind, timeout, s, es);
    if k in t.store {
      assert Stamped(timeout, s, t, k);
    }
  }

  /** `k` is stored after `es`, and after every event of `fs` from there on. */
  predicate StaysStored(kind: StoreKind, timeout: nat, s: State, es: seq<Event>, fs: seq<Event>, k: string) {
    k in After(kind, timeout, s, es).store
    && (fs == [] ||
        (StaysStored(kind, timeout, s, es, fs[..|fs| - 1], k) && k in After(kind, timeout, s, es + fs).store))
  }

  /** Over any part of a run in which a session stays stored, its expiry does not move back. */
  lemma {:induction false} ExpiryNeverDecreases(kind: StoreKind, timeout: nat, s: State, es: seq<Event>,
                                                fs: seq<Event>, k: string)
    requires Runs(kind, timeout, s, es + fs) && NotBeyondTimeout(timeout, s, k)
    requires StaysStored(kind, timeout, s, es, fs, k)
    ensures var t, t' := After(kind, timeout, s, es), After(kind, timeout, s, es + fs);
            k in t.store && k in t'.store && t.store[k].expires <= t'.store[k].expires
  {
    if fs == [] {
      assert es + fs == es;
    } else {
      var init, e := fs[..|fs| - 1], fs[|fs| - 1];
      assert es + fs == (es + init) + [e];
      ExpiryStep(kind, timeout, s, es + init, e, k);
      ExpiryNeverDecreases(kind, timeout, s, es, init, k);
    }
  }

  /** The premise is needed: the first touch of any other session moves its expiry back. */
  lemma FarExpiryMovesBack(kind: StoreKind, timeout: nat, s: State, k: string)
    ensures NotBeyondTimeout(timeout, s, k) <==>
            !(k in s.store && Runs(kind, timeout, s, [Touch(k)])
              && After(kind, timeout, s, [Touch(k)]).store[k].expires < s.store[k].expires)
  {
    assert [] + [Touch(k)] == [Touch(k)];
    RunSnoc(kind, timeout, s, [], Touch(k));
  }
}
