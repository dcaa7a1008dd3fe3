/** The two models of the session manager agree: an operation that nobody interrupts does in the module
    Interleaved what one event does in the module Serialised, so every run there is a run here. */
module Levels {
  import opened Bcd
  import opened SessionTimes
  import S = Serialised
  import opened Interleaved
  import opened Races

  /** What the serialised model sees of a state. */
  function Seen(s: State): S.State {
    S.State(s.store, s.log, s.clock)
  }

  /** `s'` differs from `s` only in what is seen, in the accounts and in that thread `tid` stands at `t'`. */
  predicate OnlyMoved(s: State, s': State, tid: nat, t': Thread)
    requires tid < |s.threads|
  {
    && s'.threads == s.threads[tid := t'] && s'.lock == s.lock && s'.cleaner == s.cleaner
    && s'.running == s.running && s'.clock == s.clock
  }

  lemma TouchSeen(cfg: Config, s: State, u: State, imsi: string)
    requires u.clock == s.clock && u.store == s.store[imsi := Session(s.clock, s.clock + cfg.timeout)]
    requires u.log == if imsi in s.store then s.log else s.log + [Entry(s.clock, imsi, Created)]
    ensures Seen(u) == S.Apply(cfg.kind, cfg.timeout, Seen(s), S.Touch(imsi))
  {
    assert s.log + [] == s.log;
  }

  lemma RefreshSeen(cfg: Config, s: State, tid: nat)
    requires tid < |s.threads| && s.threads[tid].TouchLock? && s.threads[tid].imsi in s.store
    requires s.threads[tid].now == s.clock && s.threads[tid].expires == s.clock + cfg.timeout
    ensures OnlyMoved(s, Refreshed(s, tid), tid, UdpLoop)
    ensures Seen(Refreshed(s, tid)) == S.Apply(cfg.kind, cfg.timeout, Seen(s), S.Touch(s.threads[tid].imsi))
  {
    TouchSeen(cfg, s, Refreshed(s, tid), s.threads[tid].imsi);
  }

  lemma LandingSeen(cfg: Config, s: State, tid: nat)
    requires tid < |s.threads| && s.threads[tid].TouchLock? && s.threads[tid].imsi !in s.store
    requires s.threads[tid].now == s.clock && s.threads[tid].expires == s.clock + cfg.timeout
    ensures OnlyMoved(s, Landed(s, tid), tid, UdpLoop)
    ensures Seen(Landed(s, tid)) == S.Apply(cfg.kind, cfg.timeout, Seen(s), S.Touch(s.threads[tid].imsi))
  {
    TouchSeen(cfg, s, Landed(s, tid), s.threads[tid].imsi);
  }

  /** The locked part of touch_session is one event. */
  lemma LockedTouchIsAtomic(cfg: Config, s: State, tid: nat) returns (es: seq<Event>)
    requires tid < |s.threads| && s.threads[tid].TouchLock? && s.lock == []
    requires s.threads[tid].now == s.clock && s.threads[tid].expires == s.clock + cfg.timeout
    ensures CanRun(cfg, s, es) && OnlyMoved(s, Reach(cfg, s, es), tid, UdpLoop)
    ensures Seen(Reach(cfg, s, es)) == S.Apply(cfg.kind, cfg.timeout, Seen(s), S.Touch(s.threads[tid].imsi))
  {
    var u: State;
    if s.threads[tid].imsi in s.store {
      RefreshLands(cfg, s, tid);
      RefreshSeen(cfg, s, tid);
      es, u := Moves(tid, 4), Refreshed(s, tid);
    } else {
      TouchLands(cfg, s, tid);
      LandingSeen(cfg, s, tid);
      es, u := Moves(tid, 5), Landed(s, tid);
    }
    assert Leads(cfg, s, es, u);
  }

  /** An uninterrupted packet is one touch. */
  lemma PacketIsAtomic(cfg: Config, s: State, tid: nat, bytes: seq<Byte>) returns (es: seq<Event>)
    requires tid < |s.threads| && s.threads[tid] == UdpReceive && s.lock == []
    requires bytes != [] && Decode(Received(bytes)) !in cfg.blocked
    ensures CanRun(cfg, s, es) && OnlyMoved(s, Reach(cfg, s, es), tid, UdpLoop)
    ensures Seen(Reach(cfg, s, es)) == S.Apply(cfg.kind, cfg.timeout, Seen(s), S.Touch(Decode(Received(bytes))))
  {
    var t := s.(threads := s.threads[tid := TouchLock(Decode(Received(bytes)), s.clock, s.clock + cfg.timeout)]);
    var early := ReceiveToLock(cfg, s, tid, bytes);
    var late := LockedTouchIsAtomic(cfg, t, tid);
    assert t.threads[tid := UdpLoop] == s.threads[tid := UdpLoop];
    RunConcat(cfg, s, early, late);
    es := early + late;
  }

  /** The same, from the test of running_ on; the worker comes back to where it was. */
  lemma TouchIsAtomic(cfg: Config, s: State, tid: nat, bytes: seq<Byte>) returns (es: seq<Event>)
    requires tid < |s.threads| && s.threads[tid] == UdpLoop && s.running && s.lock == []
    requires bytes != [] && Decode(Received(bytes)) !in cfg.blocked
    ensures CanRun(cfg, s, es) && OnlyMoved(s, Reach(cfg, s, es), tid, UdpLoop)
    ensures Seen(Reach(cfg, s, es)) == S.Apply(cfg.kind, cfg.timeout, Seen(s), S.Touch(Decode(Received(bytes))))
  {
    var t := s.(threads := s.threads[tid := UdpReceive]);
    QuietStep(cfg, s, tid, Nothing, UdpReceive);
    RunOne(cfg, s, Move(tid));
    var late := PacketIsAtomic(cfg, t, tid, bytes);
    assert t.threads[tid := UdpLoop] == s.threads[tid := UdpLoop];
    RunConcat(cfg, s, [Move(tid)], late);
    es := [Move(tid)] + late;
  }

  /** What is left of `s` after a stop handler has chosen and removed a session. */
  predicate StopRemoved(s: State, s': State, tid: nat)
    requires tid < |s.threads|
  {
    && s'.threads == s.threads[tid := OffSleep(0)] && s'.lock == [] && s'.cleaner == s.cleaner
    && s'.clock == s.clock
  }

  /** A stop handler's first removal, uninterrupted, is one offload. */
  lemma OffloadIsAtomic(cfg: Config, s: State, tid: nat, imsi: string) returns (es: seq<Event>)
    requires tid < |s.threads| && s.threads[tid] == StopUdp && s.lock == []
    requires cfg.rate >= 1 && imsi in Active(s.store, s.clock)
    ensures CanRun(cfg, s, es) && StopRemoved(s, Reach(cfg, s, es), tid)
    ensures Seen(Reach(cfg, s, es)) == S.Apply(cfg.kind, cfg.timeout, Seen(s), S.Offload(imsi))
  {
    var t := s.(running := false, threads := s.threads[tid := OffLock(imsi, 0)]);
    var early := StopToLock(cfg, s, tid, imsi);
    OffloadLands(cfg, t, tid);
    assert t.threads[tid := OffSleep(0)] == s.threads[tid := OffSleep(0)];
    LeadsChain(cfg, s, early, t, Moves(tid, 4), Removed(t, tid));
    es := early + Moves(tid, 4);
  }

  function Sweeps(n: nat): (es: seq<Event>)
    ensures |es| == n && forall i | 0 <= i < n :: es[i] == Sweep([])
  {
    seq(n, _ => Sweep([]))
  }

  /** The cleaner writes its records one by one, as the serialised model does at once. */
  lemma {:induction false} RecordsInTurn(cfg: Config, s: State, order: seq<string>, n: nat)
    requires s.cleaner == CleanRecord(s.clock, order, 0) && n <= |order|
    ensures Leads(cfg, s, Sweeps(n),
                  s.(cleaner := CleanRecord(s.clock, order, n), log := S.WithExpiries(s.log, order[..n], s.clock)))
  {
    if n > 0 {
      RecordsInTurn(cfg, s, order, n - 1);
      var t := s.(cleaner := CleanRecord(s.clock, order, n - 1), log := S.WithExpiries(s.log, order[..n - 1], s.clock));
      var u := s.(cleaner := CleanRecord(s.clock, order, n), log := S.WithExpiries(s.log, order[..n], s.clock));
      assert order[..n][..n - 1] == order[..n - 1];
      assert Goes(cfg, t, Sweep([]), u);
      RunOne(cfg, t, Sweep([]));
      LeadsChain(cfg, s, Sweeps(n - 1), t, [Sweep([])], u);
      assert Sweeps(n) == Sweeps(n - 1) + [Sweep([])];
    }
  }

  /** The deletion after a listing that is still right loses nothing and deletes nothing in vain. */
  lemma DeletesListed(cfg: Config, s: State, order: seq<string>)
    requires s.cleaner == CleanRecord(s.clock, order, |order|)
    requires Enumerates(order, ExpiredPart(cfg.kind, s.store, s.clock).Keys)
    ensures Leads(cfg, s, [Sweep([])], s.(cleaner := CleanNow, store := Unexpired(cfg.kind, s.store, s.clock)))
  {
    var gone := ExpiredPart(cfg.kind, s.store, s.clock).Keys;
    assert SetOf(order) == gone;
    assert s.lost + multiset(gone - SetOf(order)) == s.lost && s.surplus + multiset(SetOf(order) - gone) == s.surplus;
    RunOne(cfg, s, Sweep([]));
  }

  /** A cleaner round, up to its deletion. */
  lemma ListsAndRecords(cfg: Config, s: State, order: seq<string>) returns (es: seq<Event>)
    requires s.cleaner == CleanNow && Enumerates(order, ExpiredPart(cfg.kind, s.store, s.clock).Keys)
    ensures Leads(cfg, s, es, s.(cleaner := CleanRecord(s.clock, order, |order|),
                                 log := S.WithExpiries(s.log, order, s.clock)))
  {
    var n, u := |order|, s.(cleaner := CleanRecord(s.clock, order, 0));
    var listing := Lists(cfg, s, order);
    RecordsInTurn(cfg, u, order, n);
    assert order[..n] == order;
    LeadsChain(cfg, s, listing, u, Sweeps(n),
               s.(cleaner := CleanRecord(s.clock, order, n), log := S.WithExpiries(s.log, order, s.clock)));
    es := listing + Sweeps(n);
  }

  lemma Lists(cfg: Config, s: State, order: seq<string>) returns (es: seq<Event>)
    requires s.cleaner == CleanNow && Enumerates(order, ExpiredPart(cfg.kind, s.store, s.clock).Keys)
    ensures Leads(cfg, s, es, s.(cleaner := CleanRecord(s.clock, order, 0)))
  {
    var t, u := s.(cleaner := CleanLoad(s.clock)), s.(cleaner := CleanRecord(s.clock, order, 0));
    es := [Sweep([]), Sweep(order)];
    TraceLeads(cfg, [s, t, u], es);
  }

  /** An uninterrupted cleaner round is one Clean event. */
  lemma RoundIsAtomic(cfg: Config, s: State, order: seq<string>) returns (es: seq<Event>)
    requires s.cleaner == CleanNow && Enumerates(order, ExpiredPart(cfg.kind, s.store, s.clock).Keys)
    ensures CanRun(cfg, s, es)
    ensures Reach(cfg, s, es) ==
            s.(store := Unexpired(cfg.kind, s.store, s.clock), log := S.WithExpiries(s.log, order, s.clock))
    ensures Seen(Reach(cfg, s, es)) == S.Apply(cfg.kind, cfg.timeout, Seen(s), S.Clean(order))
  {
    var t := s.(cleaner := CleanRecord(s.clock, order, |order|), log := S.WithExpiries(s.log, order, s.clock));
    var u := s.(store := Unexpired(cfg.kind, s.store, s.clock), log := S.WithExpiries(s.log, order, s.clock));
    var early := ListsAndRecords(cfg, s, order);
    DeletesListed(cfg, t, order);
    LeadsChain(cfg, s, early, t, [Sweep([])], u);
    es := early + [Sweep([])];
  }

  // Clearing the store.

  lemma {:induction false} SomeOrder(keys: set<string>) returns (order: seq<string>)
    ensures Enumerates(order, keys)
    decreases |keys|
  {
    if keys == {} {
      order := [];
    } else {
      var k :| k in keys;
      var init := SomeOrder(keys - {k});
      order := init + [k];
    }
  }

  lemma {:induction false} SomeTimeAfter(store: Sessions) returns (later: nat)
    ensures forall k | k in store :: store[k].expires < later
    decreases |store|
  {
    if store == map[] {
      later := 0;
    } else {
      var k :| k in store;
      assert (store - {k}).Keys == store.Keys - {k};
      var rest := SomeTimeAfter(store - {k});
      later := if rest <= store[k].expires then store[k].expires + 1 else rest;
      assert forall i | i in store && i != k :: i in store - {k};
    }
  }

  /** After some time, one uninterrupted cleaner round with any order removes every session. */
  lemma RoundRemovesAll(cfg: Config, s: State, order: seq<string>) returns (es: seq<Event>, later: nat)
    requires s.cleaner == CleanNow && Enumerates(order, s.store.Keys)
    ensures later >= s.clock
    ensures Leads(cfg, s, es, s.(clock := later, store := map[], log := S.WithExpiries(s.log, order, later)))
  {
    var bound := SomeTimeAfter(s.store);
    later := s.clock + bound;
    var t := s.(clock := later);
    Passes(cfg, s, bound);
    assert ExpiredPart(cfg.kind, t.store, t.clock) == t.store && Unexpired(cfg.kind, t.store, t.clock) == map[];
    var round := RoundIsAtomic(cfg, t, order);
    RunConcat(cfg, s, [Pass(bound)], round);
    es := [Pass(bound)] + round;
  }

  // Whole runs.

  /** Where a thread starts that is to do the event, and where it then waits for its turn. */
  function StartPlace(e: S.Event): Thread {
    if e.Offload? then StopUdp else UdpLoop
  }

  function Place(e: S.Event): Thread {
    if e.Offload? then StopUdp else UdpReceive
  }

  /** A client can send this IMSI and have it touched. */
  predicate CanBeSent(cfg: Config, imsi: string) {
    AllSymbols(imsi) && 0 < |imsi| <= MAX_SYMBOLS && imsi !in cfg.blocked
  }

  /** What the server's environment must provide for the event: a packet, or a rate to offload at. */
  predicate Provided(cfg: Config, e: S.Event) {
    (e.Touch? ==> CanBeSent(cfg, e.imsi)) && (e.Offload? ==> cfg.rate >= 1)
  }

  /** No operation is under way; the threads from `n` on wait for their events. */
  predicate Ready(s: State, es: seq<S.Event>, n: nat) {
    && s.lock == [] && s.cleaner == CleanNow && |s.threads| == |es|
    && forall i | n <= i < |es| :: s.threads[i] == Place(es[i])
  }

  lemma EventIsAtomic(cfg: Config, s: State, es: seq<S.Event>, n: nat) returns (fs: seq<Event>)
    requires n < |es| && Ready(s, es, n) && S.Enabled(cfg.kind, Seen(s), es[n]) && Provided(cfg, es[n])
    ensures CanRun(cfg, s, fs) && Ready(Reach(cfg, s, fs), es, n + 1)
    ensures Seen(Reach(cfg, s, fs)) == S.Apply(cfg.kind, cfg.timeout, Seen(s), es[n])
  {
    match es[n]
    case Touch(imsi) =>
      RoundTripExactly(imsi);
      EncodeLength(imsi);
      fs := PacketIsAtomic(cfg, s, n, Encode(imsi));
    case Offload(imsi) => fs := OffloadIsAtomic(cfg, s, n, imsi);
    case Clean(order) => fs := RoundIsAtomic(cfg, s, order);
    case Tick(seconds) =>
      fs := [Pass(seconds)];
      RunOne(cfg, s, Pass(seconds));
  }

  lemma {:induction false} EventsInTurn(cfg: Config, s: State, es: seq<S.Event>, n: nat) returns (fs: seq<Event>)
    requires n <= |es| && Ready(s, es, 0) && S.Runs(cfg.kind, cfg.timeout, Seen(s), es[..n])
    requires forall i | 0 <= i < n :: Provided(cfg, es[i])
    ensures CanRun(cfg, s, fs) && Ready(Reach(cfg, s, fs), es, n)
    ensures Seen(Reach(cfg, s, fs)) == S.After(cfg.kind, cfg.timeout, Seen(s), es[..n])
  {
    if n == 0 {
      fs := [];
    } else {
      assert es[..n][..n - 1] == es[..n - 1];
      var before := EventsInTurn(cfg, s, es, n - 1);
      var last := EventIsAtomic(cfg, Reach(cfg, s, before), es, n - 1);
      RunConcat(cfg, s, before, last);
      fs := before + last;
    }
  }

  function Waiting(es: seq<S.Event>, n: nat): (ts: seq<Thread>)
    ensures |ts| == |es| && forall i | 0 <= i < |es| :: ts[i] == if i < n then Place(es[i]) else StartPlace(es[i])
  {
    seq(|es|, i requires 0 <= i < |es| => if i < n then Place(es[i]) else StartPlace(es[i]))
  }

  /** First all workers go to wait for packets. */
  lemma {:induction false} WorkersWait(cfg: Config, s: State, es: seq<S.Event>, n: nat) returns (fs: seq<Event>)
    requires s.running && s.threads == Waiting(es, 0) && n <= |es|
    ensures Leads(cfg, s, fs, s.(threads := Waiting(es, n)))
  {
    if n == 0 {
      fs := [];
    } else {
      fs := WorkersWait(cfg, s, es, n - 1);
      var t := s.(threads := Waiting(es, n - 1));
      if es[n - 1].Offload? {
        assert Waiting(es, n) == Waiting(es, n - 1);
      } else {
        assert Waiting(es, n - 1)[n - 1 := UdpReceive] == Waiting(es, n);
        QuietStep(cfg, t, n - 1, Nothing, UdpReceive);
        RunOne(cfg, t, Move(n - 1));
        LeadsChain(cfg, s, fs, t, [Move(n - 1)], s.(threads := Waiting(es, n)));
        fs := fs + [Move(n - 1)];
      }
    }
  }

  /** Every run of the serialised model, from any restored store, whose IMSIs a client can send, is also a run of
      the interleaved model from the start of a server, with a thread for each event. */
  lemma SerialisedRunsInterleave(cfg: Config, s: State, es: seq<S.Event>) returns (fs: seq<Event>)
    requires IsStart(s) && s.threads == Waiting(es, 0) && S.Runs(cfg.kind, cfg.timeout, Seen(s), es)
    requires forall i | 0 <= i < |es| :: Provided(cfg, es[i])
    ensures CanRun(cfg, s, fs)
    ensures Seen(Reach(cfg, s, fs)) == S.After(cfg.kind, cfg.timeout, Seen(s), es)
  {
    var t := s.(threads := Waiting(es, |es|));
    var early := WorkersWait(cfg, s, es, |es|);
    assert es[..|es|] == es && Ready(t, es, 0);
    var late := EventsInTurn(cfg, t, es, |es|);
    RunConcat(cfg, s, early, late);
    fs := early + late;
  }
}
