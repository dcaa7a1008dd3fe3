/** Exactly which servers can lose a session: one that vanishes without an "expired" record. */
module Losses {
  import opened Bcd
  import opened SessionTimes
  import opened Interleaved
  import opened Conservation
  import opened Races
  import opened Levels

  /** For `imsi`, the creations and the session restored in `s` are no more than the expiries, written or about to be
      written, and the session stored in `t`. */
  predicate Accounted(s: State, t: State, imsi: string) {
    CountOf(t.log, imsi, Created) + One(imsi in s.store) <=
    CountOf(t.log, imsi, Expired) + ExpirePending(t, imsi) + CleanPending(t, imsi) + One(imsi in t.store)
  }

  /** At any moment of any run: the sessions of an IMSI are accounted for exactly when its losses are covered by
      "created" records still to come, revivals, and records of removals that removed nothing or are still to come. */
  lemma AccountedExactly(cfg: Config, s: State, es: seq<Event>, imsi: string)
    requires IsStart(s) && CanRun(cfg, s, es)
    ensures var t := Reach(cfg, s, es);
            Accounted(s, t, imsi) <==>
            t.lost[imsi] <= CreatePending(t, imsi) + t.revived[imsi] + t.surplus[imsi] + Listed(t, imsi)
  {
    BooksBalance(cfg, s, es, imsi);
  }

  /** A touch that is held up before the mutex for longer than its timeout, with the cleaner between listing and
      deleting when it goes on, is lost. */
  lemma HeldTouchIsLost(cfg: Config, s: State, tid: nat, bytes: seq<Byte>) returns (es: seq<Event>)
    requires tid < |s.threads| && s.threads[tid] == UdpLoop && s.running && s.lock == []
    requires bytes != [] && Decode(Received(bytes)) !in cfg.blocked && s.store == map[] && s.cleaner == CleanNow
    ensures CanRun(cfg, s, es)
    ensures var imsi, t := Decode(Received(bytes)), Reach(cfg, s, es);
            && t.lost[imsi] == s.lost[imsi] + 1 && t.surplus[imsi] == s.surplus[imsi] && t.revived == s.revived
            && t.lock == [] && t.cleaner == CleanNow
  {
    var imsi := Decode(Received(bytes));
    var s1 := s.(threads := s.threads[tid := TouchLock(imsi, s.clock, s.clock + cfg.timeout)]);
    var s2 := s1.(clock := s.clock + cfg.timeout + 1);
    var s3 := s2.(cleaner := CleanRecord(s2.clock, [], 0));
    var early := LoopToLock(cfg, s, tid, bytes);
    Passes(cfg, s1, cfg.timeout + 1);
    LeadsChain(cfg, s, early, s1, [Pass(cfg.timeout + 1)], s2);
    ListsNothing(cfg, s2);
    var first := early + [Pass(cfg.timeout + 1)];
    LeadsChain(cfg, s, first, s2, [Sweep([]), Sweep([])], s3);
    StaleSaveIsLost(cfg, s3, tid);
    var second := first + [Sweep([]), Sweep([])];
    RunConcat(cfg, s, second, Moves(tid, 5) + [Sweep([])]);
    es := second + (Moves(tid, 5) + [Sweep([])]);
  }

  lemma ListsNothing(cfg: Config, s: State)
    requires s.store == map[] && s.cleaner == CleanNow
    ensures Leads(cfg, s, [Sweep([]), Sweep([])], s.(cleaner := CleanRecord(s.clock, [], 0)))
  {
    var s1, s2 := s.(cleaner := CleanLoad(s.clock)), s.(cleaner := CleanRecord(s.clock, [], 0));
    TraceLeads(cfg, [s, s1, s2], [Sweep([]), Sweep([])]);
  }

  /** Such a loss happens in a run from the start, whatever the timeout, the store and the sessions restored. */
  lemma LossFromTheStart(cfg: Config, s: State, tid: nat, bytes: seq<Byte>) returns (es: seq<Event>)
    requires IsStart(s) && tid < |s.threads| && s.threads[tid] == UdpLoop
    requires bytes != [] && Decode(Received(bytes)) !in cfg.blocked
    ensures CanRun(cfg, s, es) && !Accounted(s, Reach(cfg, s, es), Decode(Received(bytes)))
  {
    var order := SomeOrder(s.store.Keys);
    var early, later := RoundRemovesAll(cfg, s, order);
    var late := HeldTouchIsLost(cfg, Reach(cfg, s, early), tid, bytes);
    RunConcat(cfg, s, early, late);
    es := early + late;
    AccountedExactly(cfg, s, es, Decode(Received(bytes)));
  }

  /** A server never loses a session exactly when it touches none: when it has no worker, or lets no packet in. No
      timeout, however long, and no choice of store prevents the loss. */
  lemma NothingVanishesExactly(cfg: Config, s: State)
    requires IsStart(s)
    ensures (forall es, imsi | CanRun(cfg, s, es) :: Accounted(s, Reach(cfg, s, es), imsi)) <==> !CanTouch(cfg, s)
  {
    if CanTouch(cfg, s) {
      var b: seq<Byte> :| b != [] && Decode(Received(b)) !in cfg.blocked;
      var i :| 0 <= i < |s.threads| && s.threads[i] == UdpLoop;
      var es := LossFromTheStart(cfg, s, i, b);
    } else {
      forall es, imsi | CanRun(cfg, s, es)
        ensures Accounted(s, Reach(cfg, s, es), imsi)
      {
        StartTouchesNothing(cfg, s);
        RunKeepsNoTouch(cfg, s, es);
        NoSilentDisappearance(cfg, s, es, imsi);
      }
    }
  }
}
