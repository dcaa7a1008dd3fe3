/** The session manager object, run by one thread while the clock moves on by itself. */
module SessionManagers {
  import opened CdrLog
  import opened SessionStores
  import opened SessionTimes
  import opened Serialised
  import opened ManagerSpec
  import opened TextOrder
  import opened TextTime
  import Calendar

  /** An "expired" record that offloading wrote, with the time of writing. */
  datatype Removal = Removal(imsi: string, at: nat)

  function ImsisOf(gone: seq<Removal>): set<string> {
    set g | g in gone :: g.imsi
  }

  function RemovalRecords(text: TimeText, gone: seq<Removal>): (rs: seq<CdrRecord>)
    ensures |rs| == |gone|
    ensures forall i | 0 <= i < |gone| :: rs[i] == CdrRecord(text(gone[i].at), gone[i].imsi, "expired")
  {
    seq(|gone|, i requires 0 <= i < |gone| => CdrRecord(text(gone[i].at), gone[i].imsi, "expired"))
  }

  /** `gone` are different sessions, all active at `start`, removed at times from `start` to `end`. */
  predicate Offloaded(text: TimeText, table: Table, start: nat, end: nat, gone: seq<Removal>) {
    && (forall g | g in gone :: g.imsi in ActiveRows(table, text(start)) && start <= g.at <= end)
    && (forall i, j | 0 <= i < j < |gone| :: gone[i].imsi != gone[j].imsi)
  }

  function Min(a: nat, b: nat): nat {
    if a <= b then a else b
  }

  lemma {:induction false} RemovalCount(gone: seq<Removal>)
    requires forall i, j | 0 <= i < j < |gone| :: gone[i].imsi != gone[j].imsi
    ensures |ImsisOf(gone)| == |gone|
  {
    if gone != [] {
      var init, last := gone[..|gone| - 1], gone[|gone| - 1];
      RemovalCount(init);
      assert gone == init + [last];
      assert ImsisOf(gone) == ImsisOf(init) + {last.imsi};
      assert last.imsi !in ImsisOf(init);
    }
  }

  lemma ImsisOfConcat(gone: seq<Removal>, more: seq<Removal>)
    ensures ImsisOf(gone + more) == ImsisOf(gone) + ImsisOf(more)
  {
    assert forall g :: g in gone + more <==> g in gone || g in more;
  }

  lemma RemovalRecordsConcat(text: TimeText, gone: seq<Removal>, more: seq<Removal>)
    ensures RemovalRecords(text, gone + more) == RemovalRecords(text, gone) + RemovalRecords(text, more)
  {
  }

  lemma OffloadedConcat(text: TimeText, table: Table, start: nat, mid: nat, end: nat,
                        gone: seq<Removal>, more: seq<Removal>)
    requires KeepsOrder(text) && start <= mid <= end <= Calendar.MAX_INSTANT
    requires Offloaded(text, table, start, mid, gone) && Offloaded(text, table - ImsisOf(gone), mid, end, more)
    ensures Offloaded(text, table, start, end, gone + more)
    ensures table - ImsisOf(gone + more) == table - ImsisOf(gone) - ImsisOf(more)
  {
    ActiveOnlyShrinks(text, table, start, mid);
    ImsisOfConcat(gone, more);
    forall g | g in more
      ensures g.imsi in ActiveRows(table, text(start)) && g.imsi !in ImsisOf(gone)
    {
      assert g.imsi in ActiveRows(table - ImsisOf(gone), text(mid));
    }
    assert forall i | 0 <= i < |gone| :: gone[i] in gone && gone[i].imsi in ImsisOf(gone);
    assert forall i | 0 <= i < |more| :: more[i] in more;
  }

  /** From `w0` to `w`, exactly the sessions of `gone` were removed and recorded, and time went on. */
  ghost predicate OffloadsTo(text: TimeText, w0: World, w: World, gone: seq<Removal>) {
    && w0.clock <= w.clock <= Calendar.MAX_INSTANT
    && Offloaded(text, w0.table, w0.clock, w.clock, gone)
    && w.table == w0.table - ImsisOf(gone)
    && w.records == w0.records + RemovalRecords(text, gone)
  }

  lemma OffloadsNothing(text: TimeText, w: World, later: nat)
    requires w.clock <= later <= Calendar.MAX_INSTANT
    ensures OffloadsTo(text, w, w.(clock := later), [])
  {
    assert RemovalRecords(text, []) == [];
    assert w.table - ImsisOf([]) == w.table;
  }

  lemma OffloadsOne(text: TimeText, w: World, imsi: string, later: nat)
    requires w.clock <= later <= Calendar.MAX_INSTANT && imsi in ActiveRows(w.table, text(w.clock))
    ensures OffloadsTo(text, w, World(w.table - {imsi}, w.records + [CdrRecord(text(later), imsi, "expired")], later),
                       [Removal(imsi, later)])
  {
    var one := [Removal(imsi, later)];
    assert ImsisOf(one) == {imsi};
    assert RemovalRecords(text, one) == [CdrRecord(text(later), imsi, "expired")];
  }

  /** An offload event removes and records one session at the present time. */
  lemma OffloadIsOneRemoval(text: TimeText, kind: StoreKind, timeout: nat, w: World, imsi: string)
    requires w.clock <= Calendar.MAX_INSTANT && Possible(text, kind, w, Offload(imsi))
    ensures OffloadsTo(text, w, Do(text, kind, timeout, w, Offload(imsi)), [Removal(imsi, w.clock)])
  {
    OffloadsOne(text, w, imsi, w.clock);
  }

  lemma RecordsChain(text: TimeText, a: seq<CdrRecord>, b: seq<CdrRecord>, c: seq<CdrRecord>,
                     gone: seq<Removal>, more: seq<Removal>)
    requires b == a + RemovalRecords(text, gone) && c == b + RemovalRecords(text, more)
    ensures c == a + RemovalRecords(text, gone + more)
  {
    RemovalRecordsConcat(text, gone, more);
  }

  lemma OffloadsChain(text: TimeText, w0: World, w1: World, w2: World, gone: seq<Removal>, more: seq<Removal>)
    requires KeepsOrder(text) && OffloadsTo(text, w0, w1, gone) && OffloadsTo(text, w1, w2, more)
    ensures OffloadsTo(text, w0, w2, gone + more)
  {
    OffloadedConcat(text, w0.table, w0.clock, w1.clock, w2.clock, gone, more);
    RecordsChain(text, w0.records, w1.records, w2.records, gone, more);
  }

  function ActiveCount(text: TimeText, w: World): nat {
    |ActiveRows(w.table, text(w.clock))|
  }

  lemma NobodyActive(text: TimeText, w: World)
    requires ActiveCount(text, w) == 0
    ensures forall imsi | imsi in w.table :: !Less(text(w.clock), w.table[imsi].expiresAt)
  {
    var rows := ActiveRows(w.table, text(w.clock));
    assert rows.Keys == {};
    forall imsi | imsi in w.table
      ensures !Less(text(w.clock), w.table[imsi].expiresAt)
    {
      assert imsi !in rows.Keys;
    }
  }

  lemma ActiveWithout(text: TimeText, table: Table, now: nat, gone: set<string>)
    requires gone <= ActiveRows(table, text(now)).Keys
    ensures |ActiveRows(table - gone, text(now))| + |gone| == |ActiveRows(table, text(now))|
    ensures ActiveRows(table - gone, text(now)) == map[] ==> gone == ActiveRows(table, text(now)).Keys
  {
    var all, left := ActiveRows(table, text(now)).Keys, ActiveRows(table - gone, text(now)).Keys;
    assert all == left + gone && left !! gone;
  }

  /** With the clock standing still, the active sessions are those left and those removed. */
  lemma FrozenCount(text: TimeText, w0: World, w: World, gone: seq<Removal>)
    requires OffloadsTo(text, w0, w, gone) && w.clock == w0.clock
    ensures ActiveCount(text, w) + |gone| == ActiveCount(text, w0)
    ensures ActiveCount(text, w) == 0 ==> ImsisOf(gone) == ActiveRows(w0.table, text(w0.clock)).Keys
  {
    RemovalCount(gone);
    ActiveWithout(text, w0.table, w0.clock, ImsisOf(gone));
  }

  /** Offloading that removes something, or finds nothing left, brings the end of the shutdown closer. */
  lemma OffloadingMakesProgress(text: TimeText, w0: World, w: World, gone: seq<Removal>)
    requires KeepsOrder(text) && OffloadsTo(text, w0, w, gone)
    requires ActiveCount(text, w0) != 0 && (gone == [] ==> ActiveCount(text, w) == 0)
    ensures ActiveCount(text, w) < ActiveCount(text, w0)
  {
    var before, after := ActiveRows(w0.table, text(w0.clock)).Keys, ActiveRows(w.table, text(w.clock)).Keys;
    ActiveOnlyShrinks(text, w0.table, w0.clock, w.clock);
    if gone != [] {
      assert gone[0] in gone && gone[0].imsi in before - after;
      SmallerSubset(after, before);
    }
  }

  /** `n` times `k`, added up one by one. */
  function Times(n: nat, k: nat): nat {
    if n == 0 then 0 else Times(n - 1, k) + k
  }

  lemma {:induction false} TimesIsProduct(n: nat, k: nat)
    ensures Times(n, k) == n * k
  {
    if n > 0 {
      TimesIsProduct(n - 1, k);
    }
  }

  lemma {:induction false} TimesOfSum(m: nat, n: nat, k: nat)
    ensures Times(m + n, k) == Times(m, k) + Times(n, k)
  {
    if n > 0 {
      TimesOfSum(m, n - 1, k);
    }
  }

  lemma PausesAdd(gone: seq<Removal>, more: seq<Removal>, pause: nat)
    ensures Times(|gone + more|, pause) == Times(|gone|, pause) + Times(|more|, pause)
  {
    TimesOfSum(|gone|, |more|, pause);
  }

  lemma OnePauseMore(gone: seq<Removal>, one: seq<Removal>, pause: nat)
    requires |one| == 1
    ensures Times(|gone + one|, pause) == Times(|gone|, pause) + pause
  {
  }

  lemma {:induction false} TimesGrows(n: nat, j: nat, k: nat)
    requires n > 0 && j < k
    ensures Times(n, j) < Times(n, k)
  {
    if n > 1 {
      TimesGrows(n - 1, j, k);
    }
  }

  /** The pause after each removal of offload_rate. */
  function PauseMs(rate: nat): nat
    requires rate >= 1
  {
    1000 / rate
  }

  lemma Distributes(k: nat, a: nat, b: nat)
    ensures k * (a + b) == k * a + k * b
  {
  }

  lemma {:induction false} PartsAddUp(n: nat, rate: nat, pause: nat, rest: nat)
    requires rate * pause + rest == 1000
    ensures rate * Times(n, pause) + Times(n, rest) == 1000 * n
  {
    if n > 0 {
      PartsAddUp(n - 1, rate, pause, rest);
      Distributes(rate, Times(n - 1, pause), pause);
    }
  }

  /** The pauses of `n` removals, and what the division cuts off of them. */
  lemma PauseAndRest(n: nat, rate: nat)
    requires rate >= 1
    ensures rate * Times(n, PauseMs(rate)) + Times(n, 1000 % rate) == 1000 * n
  {
    PartsAddUp(n, rate, 1000 / rate, 1000 % rate);
  }

  /** Offloading `n` sessions pauses for at most 1000 * n / rate ms and for more than n * (1000 - rate) / rate;
      so `rate` times the pauses of a full batch lies between rate * (1000 - rate) and rate * 1000. */
  lemma {:induction false} Pacing(n: nat, rate: nat)
    requires rate >= 1
    ensures rate * Times(n, PauseMs(rate)) <= 1000 * n
    ensures n > 0 ==> rate * Times(n, PauseMs(rate)) > 1000 * n - n * rate
  {
    PauseAndRest(n, rate);
    TimesIsProduct(n, rate);
    if n > 0 {
      TimesGrows(n, 1000 % rate, rate);
    }
  }

  /** A full batch of `rate` sessions pauses for at most a second, and for more than 1000 - rate ms. */
  lemma FullBatchPacing(rate: nat)
    requires rate >= 1
    ensures 1000 - rate < Times(rate, PauseMs(rate)) <= 1000
  {
    TimesIsProduct(rate, PauseMs(rate));
  }

  /** With the clock standing still, one call of offload_rate removes min(rate, remaining). */
  lemma FrozenRate(text: TimeText, w0: World, w: World, gone: seq<Removal>, rate: nat)
    requires OffloadsTo(text, w0, w, gone) && w.clock == w0.clock
    requires |gone| <= rate && (|gone| < rate ==> ActiveCount(text, w) == 0)
    ensures |gone| == Min(rate, ActiveCount(text, w0))
  {
    FrozenCount(text, w0, w, gone);
  }

  /** `calls` calls, none of them in vain, have removed `removed` of `n` active sessions. */
  ghost predicate Batches(n: nat, removed: nat, calls: nat, rate: nat) {
    && removed == Min(Times(calls, rate), n)
    && (calls > 0 ==> Times(calls - 1, rate) < n)
  }

  lemma NextBatch(n: nat, left: nat, g: nat, m: nat, calls: nat, rate: nat)
    requires left + g == n && left != 0 && Batches(n, g, calls, rate) && m == Min(rate, left)
    ensures Batches(n, g + m, calls + 1, rate)
  {
  }

  /** When nothing is left, the calls were the ceiling of the number of sessions over `rate`. */
  lemma LastBatch(n: nat, calls: nat, rate: nat)
    requires Batches(n, n, calls, rate)
    ensures n <= calls * rate && (calls > 0 ==> (calls - 1) * rate < n)
  {
    TimesIsProduct(calls, rate);
    if calls > 0 {
      TimesIsProduct(calls - 1, rate);
    }
  }

  lemma FrozenCall(text: TimeText, w0: World, w1: World, w2: World, gone: seq<Removal>, more: seq<Removal>,
                   calls: nat, rate: nat)
    requires OffloadsTo(text, w0, w1, gone) && OffloadsTo(text, w1, w2, more) && w2.clock == w0.clock
    requires ActiveCount(text, w1) != 0 && Batches(ActiveCount(text, w0), |gone|, calls, rate)
    requires |more| <= rate && (|more| < rate ==> ActiveCount(text, w2) == 0)
    ensures Batches(ActiveCount(text, w0), |gone| + |more|, calls + 1, rate)
  {
    FrozenCount(text, w0, w1, gone);
    FrozenRate(text, w1, w2, more, rate);
    NextBatch(ActiveCount(text, w0), ActiveCount(text, w1), |gone|, |more|, calls, rate);
  }

  /** What a stop has done so far: `gone` removed in `calls` calls. */
  ghost predicate Stopping(text: TimeText, w0: World, w: World, gone: seq<Removal>, calls: nat, rate: nat) {
    && OffloadsTo(text, w0, w, gone)
    && (w.clock == w0.clock ==> Batches(ActiveCount(text, w0), |gone|, calls, rate))
  }

  lemma StoppingGoesOn(text: TimeText, w0: World, w1: World, w2: World, gone: seq<Removal>, more: seq<Removal>,
                       calls: nat, rate: nat)
    requires KeepsOrder(text) && Stopping(text, w0, w1, gone, calls, rate) && OffloadsTo(text, w1, w2, more)
    requires ActiveCount(text, w1) != 0 && |more| <= rate && (|more| < rate ==> ActiveCount(text, w2) == 0)
    ensures Stopping(text, w0, w2, gone + more, calls + 1, rate)
  {
    assert OffloadsTo(text, w0, w2, gone + more) by {
      OffloadsChain(text, w0, w1, w2, gone, more);
    }
    if w2.clock == w0.clock {
      FrozenCall(text, w0, w1, w2, gone, more, calls, rate);
    }
  }

  function ImsiList(sessions: seq<StoredSession>): (imsis: seq<string>)
    ensures |imsis| == |sessions| && forall i | 0 <= i < |imsis| :: imsis[i] == sessions[i].imsi
  {
    seq(|sessions|, i requires 0 <= i < |sessions| => sessions[i].imsi)
  }

  lemma ListEnumerates(sessions: seq<StoredSession>, m: Table)
    requires Keyed(m) && Lists(sessions, m)
    ensures Enumerates(ImsiList(sessions), m.Keys)
  {
    forall k | k in m
      ensures k in ImsiList(sessions)
    {
      var i :| 0 <= i < |sessions| && sessions[i] == m[k];
      assert ImsiList(sessions)[i] == k;
    }
  }

  class SessionManager {
    const text: TimeText
    const timeout: nat
    const store: SessionStore
    const cdr: CdrWriter

    /** The present time. Only Elapse moves it. */
    var clock: nat
    var sleptMs: nat

    ghost predicate Valid()
      reads this, store.Obj(), cdr
    {
      && store.Valid() && cdr.Valid()
      && store.Obj() != this && store.Obj() != cdr
      && KeepsOrder(text) && clock <= Calendar.MAX_INSTANT
    }

    ghost function Snapshot(): World
      reads this, store.Obj(), cdr
    {
      World(store.Contents(), cdr.history, clock)
    }

    constructor (text: TimeText, timeout: nat, store: SessionStore, cdr: CdrWriter, now: nat)
      requires KeepsOrder(text) && now <= Calendar.MAX_INSTANT
      requires store.Valid() && cdr.Valid() && store.Obj() != cdr
      ensures Valid() && this.text == text && this.timeout == timeout && this.store == store && this.cdr == cdr
      ensures Snapshot() == World(store.Contents(), cdr.history, now) && sleptMs == 0
    {
      this.text := text;
      this.timeout := timeout;
      this.store := store;
      this.cdr := cdr;
      clock := now;
      sleptMs := 0;
    }

    /** Other time passes, from none to any amount. */
    method Elapse()
      requires Valid()
      modifies this`clock
      ensures Valid() && old(clock) <= clock
    {
      var later: nat := *;
      if clock <= later <= Calendar.MAX_INSTANT {
        clock := later;
      }
    }

    method TouchSession(imsi: string) returns (ok: bool)
      requires Valid()
      modifies store.Obj(), cdr
      ensures Valid() && ok
      ensures store.Contents() == old(store.Contents())[imsi := StoredSession(imsi, text(clock), text(clock + timeout))]
      ensures cdr.history == old(cdr.history)
                             + if imsi in old(store.Contents()) then [] else [CdrRecord(text(clock), imsi, "created")]
      ensures Snapshot() == Do(text, store.Kind(), timeout, old(Snapshot()), Touch(imsi))
    {
      var now := text(clock);
      var expires := text(clock + timeout);
      var known := store.SessionExists(imsi);
      if known {
        var _ := store.SaveSession(StoredSession(imsi, now, expires));
        assert cdr.history == old(cdr.history) + [];
        return true;
      }
      var _ := store.SaveSession(StoredSession(imsi, now, expires));
      cdr.Write(CdrRecord(now, imsi, "created"));
      return true;
    }

    method IsActive(imsi: string) returns (active: bool)
      requires Valid()
      ensures active <==> imsi in store.Contents() && Less(text(clock), store.Contents()[imsi].expiresAt)
      ensures active <==> Answers(text, Snapshot(), imsi)
    {
      var all := store.LoadSessions(text(clock));
      ghost var rows := ActiveRows(store.Contents(), text(clock));
      active := false;
      for i := 0 to |all|
        invariant active <==> exists j | 0 <= j < i :: all[j].imsi == imsi
      {
        if all[i].imsi == imsi {
          active := true;
        }
      }
      if imsi in rows {
        store.ValidIsKeyed();
        assert rows[imsi] in all && rows[imsi].imsi == imsi;
      }
    }

    method ExpireSession(imsi: string)
      requires Valid()
      modifies store.Obj(), cdr
      ensures Valid()
      ensures store.Contents() == old(store.Contents()) - {imsi}
      ensures cdr.history == old(cdr.history) + [CdrRecord(text(clock), imsi, "expired")]
    {
      var _ := store.DeleteSession(imsi);
      cdr.Write(CdrRecord(text(clock), imsi, "expired"));
    }

    method LogExpired(expired: seq<StoredSession>, now: string)
      requires Valid()
      modifies cdr
      ensures Valid()
      ensures cdr.history == WithExpiryRecords(old(cdr.history), ImsiList(expired), now)
    {
      ghost var order := ImsiList(expired);
      for i := 0 to |expired|
        invariant Valid()
        invariant cdr.history == WithExpiryRecords(old(cdr.history), order[..i], now)
      {
        cdr.Write(CdrRecord(now, expired[i].imsi, "expired"));
        assert order[..i + 1][..i] == order[..i];
      }
      assert order[..|expired|] == order;
    }

    /** One turn of the cleaner loop, at one moment. */
    method CleanerRound() returns (ghost order: seq<string>)
      requires Valid()
      modifies store.Obj(), cdr
      ensures Valid()
      ensures Enumerates(order, ExpiredRows(store.Kind(), old(store.Contents()), text(clock)).Keys)
      ensures store.Contents() == UnexpiredRows(store.Kind(), old(store.Contents()), text(clock))
      ensures cdr.history == WithExpiryRecords(old(cdr.history), order, text(clock))
      ensures Possible(text, store.Kind(), old(Snapshot()), Clean(order))
      ensures Snapshot() == Do(text, store.Kind(), timeout, old(Snapshot()), Clean(order))
    {
      var now := text(clock);
      var expired := store.LoadExpiredSessions(now);
      store.ValidIsKeyed();
      ListEnumerates(expired, ExpiredRows(store.Kind(), store.Contents(), now));
      order := ImsiList(expired);
      LogExpired(expired, now);
      store.CleanupExpiredSessions(now);
    }

    /** Picks some active session, as the first of the list that the store gives. */
    method FirstActive() returns (first: seq<StoredSession>)
      requires Valid()
      ensures first == [] <==> ActiveRows(store.Contents(), text(clock)) == map[]
      ensures first != [] ==> |first| == 1 && first[0].imsi in ActiveRows(store.Contents(), text(clock))
    {
      var all := store.LoadSessions(text(clock));
      ghost var rows := ActiveRows(store.Contents(), text(clock));
      if all == [] {
        assert forall k | k in rows :: rows[k] in all;
        assert forall k :: k !in rows;
        return [];
      }
      assert all[0].imsi in rows;
      return all[..1];
    }

    /** Elapse, then the second locked block of offload_rate. */
    method RemoveLater(imsi: string)
      requires Valid() && imsi in ActiveRows(store.Contents(), text(clock))
      modifies store.Obj(), cdr, this`clock
      ensures Valid()
      ensures OffloadsTo(text, old(Snapshot()), Snapshot(), [Removal(imsi, clock)])
    {
      ghost var w := Snapshot();
      Elapse();
      OffloadsOne(text, w, imsi, clock);
      ExpireSession(imsi);
    }

    /** The pause. How long it lasts on the clock is left open; `sleptMs` adds up what was asked for. */
    method Pause(ms: nat)
      requires Valid()
      modifies this`clock, this`sleptMs
      ensures Valid() && sleptMs == old(sleptMs) + ms
      ensures OffloadsTo(text, old(Snapshot()), Snapshot(), [])
    {
      ghost var w := Snapshot();
      sleptMs := sleptMs + ms;
      Elapse();
      OffloadsNothing(text, w, clock);
    }

    /** One turn of the loop of offload_rate; it is the last one when it finds no active session. */
    method OffloadTurn(rate: nat) returns (last: bool, ghost one: seq<Removal>)
      requires Valid() && rate >= 1
      modifies store.Obj(), cdr, this`clock, this`sleptMs
      ensures Valid()
      ensures OffloadsTo(text, old(Snapshot()), Snapshot(), one)
      ensures last <==> ActiveCount(text, old(Snapshot())) == 0
      ensures |one| == if last then 0 else 1
      ensures last ==> Snapshot() == old(Snapshot())
      ensures sleptMs == old(sleptMs) + if last then 0 else PauseMs(rate)
    {
      ghost var w := Snapshot();
      var first := FirstActive();
      if first == [] {
        OffloadsNothing(text, w, clock);
        return true, [];
      }
      last := false;
      RemoveLater(first[0].imsi);
      one := [Removal(first[0].imsi, clock)];
      ghost var w' := Snapshot();
      Pause(PauseMs(rate));
      OffloadsChain(text, w, w', Snapshot(), one, []);
      assert one + [] == one;
    }

    /** The clock may move on between the two locked blocks of a turn, and in the pause after them. */
    method OffloadRate(rate: nat) returns (ghost gone: seq<Removal>)
      requires Valid()
      modifies store.Obj(), cdr, this`clock, this`sleptMs
      ensures Valid()
      ensures OffloadsTo(text, old(Snapshot()), Snapshot(), gone)
      ensures |gone| <= rate && (|gone| < rate ==> ActiveCount(text, Snapshot()) == 0)
      ensures sleptMs == old(sleptMs) + if rate == 0 then 0 else Times(|gone|, PauseMs(rate))
      ensures rate == 0 ==> Snapshot() == old(Snapshot())
    {
      ghost var w0 := Snapshot();
      OffloadsNothing(text, w0, clock);
      gone := [];
      var removed := 0;
      while removed < rate
        invariant Valid() && |gone| == removed <= rate
        invariant OffloadsTo(text, w0, Snapshot(), gone)
        invariant sleptMs == old(sleptMs) + if rate == 0 then 0 else Times(|gone|, PauseMs(rate))
        invariant rate == 0 ==> Snapshot() == w0
      {
        ghost var w1 := Snapshot();
        var last, one := OffloadTurn(rate);
        if last {
          break;
        }
        OffloadsChain(text, w0, w1, Snapshot(), gone, one);
        OnePauseMore(gone, one, PauseMs(rate));
        gone := gone + one;
        removed := removed + 1;
      }
    }

    /** One turn of the loop of graceful_stop; it is the last one when it finds no active session. */
    method StopTurn(rate: nat) returns (last: bool, ghost more: seq<Removal>)
      requires Valid() && rate >= 1
      modifies store.Obj(), cdr, this`clock, this`sleptMs
      ensures Valid()
      ensures OffloadsTo(text, old(Snapshot()), Snapshot(), more)
      ensures last <==> ActiveCount(text, old(Snapshot())) == 0
      ensures last ==> more == [] && Snapshot() == old(Snapshot())
      ensures !last ==> ActiveCount(text, Snapshot()) < ActiveCount(text, old(Snapshot()))
      ensures !last ==> |more| <= rate && (|more| < rate ==> ActiveCount(text, Snapshot()) == 0)
      ensures sleptMs == old(sleptMs) + Times(|more|, PauseMs(rate))
    {
      ghost var w := Snapshot();
      var first := FirstActive();
      if first == [] {
        OffloadsNothing(text, w, clock);
        return true, [];
      }
      last := false;
      more := OffloadRate(rate);
      OffloadingMakesProgress(text, w, Snapshot(), more);
    }

    /** Every session active at the start ends removed and recorded, or past its expiry; no other session
        is touched. With the clock standing still this takes the least number of calls. */
    method GracefulStop(rate: nat) returns (calls: nat, ghost gone: seq<Removal>)
      requires Valid() && rate >= 1
      modifies store.Obj(), cdr, this`clock, this`sleptMs
      ensures Valid()
      ensures Stopping(text, old(Snapshot()), Snapshot(), gone, calls, rate)
      ensures ActiveCount(text, Snapshot()) == 0
      ensures sleptMs == old(sleptMs) + Times(|gone|, PauseMs(rate))
    {
      ghost var w0 := Snapshot();
      OffloadsNothing(text, w0, clock);
      gone := [];
      calls := 0;
      while true
        invariant Valid()
        invariant Stopping(text, w0, Snapshot(), gone, calls, rate)
        invariant sleptMs == old(sleptMs) + Times(|gone|, PauseMs(rate))
        decreases ActiveCount(text, Snapshot())
      {
        ghost var w1 := Snapshot();
        var last, more := StopTurn(rate);
        if last {
          break;
        }
        StoppingGoesOn(text, w0, w1, Snapshot(), gone, more, calls, rate);
        PausesAdd(gone, more, PauseMs(rate));
        gone := gone + more;
        calls := calls + 1;
      }
    }
  }

  /** What a finished graceful_stop did, with the clock standing still: it removed and recorded exactly the
      active sessions, in the ceiling of their number over `rate` calls. */
  lemma FrozenStop(text: TimeText, w0: World, w: World, gone: seq<Removal>, calls: nat, rate: nat)
    requires Stopping(text, w0, w, gone, calls, rate) && ActiveCount(text, w) == 0 && w.clock == w0.clock
    ensures ImsisOf(gone) == ActiveRows(w0.table, text(w0.clock)).Keys && |gone| == ActiveCount(text, w0)
    ensures |gone| <= calls * rate && (calls > 0 ==> (calls - 1) * rate < |gone|)
  {
    FrozenCount(text, w0, w, gone);
    LastBatch(|gone|, calls, rate);
  }

  /** With the clock moving: each session that was active was removed and recorded, or has expired; each
      session that was not active is untouched. */
  lemma MovingStop(text: TimeText, w0: World, w: World, gone: seq<Removal>, imsi: string)
    requires OffloadsTo(text, w0, w, gone) && ActiveCount(text, w) == 0 && imsi in w0.table
    ensures imsi in ActiveRows(w0.table, text(w0.clock)) ==>
              (imsi !in w.table && exists g | g in gone :: g.imsi == imsi)
              || (imsi in w.table && !ActiveAt(w.table[imsi], text(w.clock)))
    ensures imsi !in ActiveRows(w0.table, text(w0.clock)) ==> imsi in w.table && w.table[imsi] == w0.table[imsi]
  {
    assert imsi !in ActiveRows(w.table, text(w.clock)).Keys;
  }
}
