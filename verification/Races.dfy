/** What the interleavings really allow: runs that break what holds when operations are atomic. */
module Races {
  import opened Bcd
  import opened SessionTimes
  import opened Interleaved

  lemma {:induction false} RunConcat(cfg: Config, s: State, es: seq<Event>, fs: seq<Event>)
    ensures Reach(cfg, s, es + fs) == Reach(cfg, Reach(cfg, s, es), fs)
    ensures CanRun(cfg, s, es + fs) <==> CanRun(cfg, s, es) && CanRun(cfg, Reach(cfg, s, es), fs)
  {
    if fs == [] {
      assert es + fs == es;
    } else {
      RunConcat(cfg, s, es, fs[..|fs| - 1]);
      assert (es + fs)[..|es + fs| - 1] == es + fs[..|fs| - 1];
    }
  }

  lemma RunOne(cfg: Config, s: State, e: Event)
    ensures Reach(cfg, s, [e]) == Next(cfg, s, e)
    ensures CanRun(cfg, s, [e]) <==> CanHappen(cfg, s, e)
  {
    assert [e][..0] == [];
  }

  /** `es` can happen from `s` and leads to `t`. */
  predicate Leads(cfg: Config, s: State, es: seq<Event>, t: State) {
    CanRun(cfg, s, es) && Reach(cfg, s, es) == t
  }

  lemma LeadsChain(cfg: Config, s: State, es: seq<Event>, t: State, fs: seq<Event>, u: State)
    requires Leads(cfg, s, es, t) && Leads(cfg, t, fs, u)
    ensures Leads(cfg, s, es + fs, u)
  {
    RunConcat(cfg, s, es, fs);
  }

  predicate Goes(cfg: Config, s: State, e: Event, t: State) {
    CanHappen(cfg, s, e) && Next(cfg, s, e) == t
  }

  /** The states that `es` goes through. */
  predicate Trace(cfg: Config, ss: seq<State>, es: seq<Event>) {
    |ss| == |es| + 1 && forall i | 0 <= i < |es| :: Goes(cfg, ss[i], es[i], ss[i + 1])
  }

  lemma {:induction false} TraceLeads(cfg: Config, ss: seq<State>, es: seq<Event>)
    requires Trace(cfg, ss, es)
    ensures Leads(cfg, ss[0], es, ss[|es|])
  {
    if es != [] {
      TraceLeads(cfg, ss[..|es|], es[..|es| - 1]);
    }
  }

  function Move(tid: nat): Event {
    Step(tid, Nothing)
  }

  function Moves(tid: nat, n: nat): (es: seq<Event>)
    ensures |es| == n && forall i | 0 <= i < n :: es[i] == Move(tid)
  {
    seq(n, _ => Move(tid))
  }

  // Single steps.

  /** A step that only moves its thread on. */
  lemma QuietStep(cfg: Config, s: State, tid: nat, input: Input, t': Thread)
    requires tid < |s.threads| && CanStep(cfg, s, s.threads[tid], input)
    requires var t := s.threads[tid];
             || t.UdpLoop? || t.UdpReceive? || t.TouchNow? || t.TouchExpires? || t.TouchExists?
             || t.StopCheck? || t.OffPick?
    requires t' == ThreadAfter(cfg, s, s.threads[tid], input)
    ensures Goes(cfg, s, Step(tid, input), s.(threads := s.threads[tid := t']))
  {
  }

  lemma LockStep(cfg: Config, s: State, tid: nat)
    requires tid < |s.threads| && (s.threads[tid].TouchLock? || s.threads[tid].OffLock?) && s.lock == []
    ensures var t' := ThreadAfter(cfg, s, s.threads[tid], Nothing);
            Goes(cfg, s, Move(tid), s.(threads := s.threads[tid := t'], lock := [tid]))
  {
  }

  lemma UnlockStep(cfg: Config, s: State, tid: nat)
    requires tid < |s.threads| && (s.threads[tid].TouchUnlock? || s.threads[tid].OffUnlock?)
    ensures var t' := ThreadAfter(cfg, s, s.threads[tid], Nothing);
            Goes(cfg, s, Move(tid), s.(threads := s.threads[tid := t'], lock := []))
  {
  }

  lemma SaveStep(cfg: Config, s: State, tid: nat)
    requires tid < |s.threads| && s.threads[tid].TouchSave? && !s.threads[tid].known
    ensures var t := s.threads[tid];
            Goes(cfg, s, Move(tid), s.(threads := s.threads[tid := TouchRecord(t.imsi, t.now)],
                                       store := s.store[t.imsi := Session(t.now, t.expires)],
                                       stale := s.stale + Once(t.expires <= s.clock, t.imsi)))
  {
  }

  lemma DeleteStep(cfg: Config, s: State, tid: nat)
    requires tid < |s.threads| && s.threads[tid].OffDelete?
    ensures var t := s.threads[tid];
            Goes(cfg, s, Move(tid), s.(threads := s.threads[tid := OffRecord(t.imsi, t.removed)],
                                       store := s.store - {t.imsi},
                                       surplus := s.surplus + Once(t.imsi !in s.store, t.imsi)))
  {
  }

  /** The record that a thread standing before its CDR write is about to write. */
  function RecordOf(clock: nat, t: Thread): Entry
    requires t.TouchRecord? || t.OffRecord?
  {
    if t.TouchRecord? then Entry(t.now, t.imsi, Created) else Entry(clock, t.imsi, Expired)
  }

  lemma RecordStep(cfg: Config, s: State, tid: nat)
    requires tid < |s.threads| && (s.threads[tid].TouchRecord? || s.threads[tid].OffRecord?)
    ensures var t := s.threads[tid];
            Goes(cfg, s, Move(tid),
                 s.(threads := s.threads[tid := if t.TouchRecord? then TouchUnlock else OffUnlock(t.removed)],
                    log := s.log + [RecordOf(s.clock, t)]))
  {
  }

  // Whole operations without interruption.

  /** What a touch that creates a session leaves behind. */
  function Landed(s: State, tid: nat): State
    requires tid < |s.threads| && s.threads[tid].TouchLock?
  {
    var t := s.threads[tid];
    s.(store := s.store[t.imsi := Session(t.now, t.expires)],
       log := s.log + [Entry(t.now, t.imsi, Created)],
       threads := s.threads[tid := UdpLoop],
       stale := s.stale + Once(t.expires <= s.clock, t.imsi))
  }

  lemma MovesConcat(tid: nat, m: nat, n: nat)
    ensures Moves(tid, m) + Moves(tid, n) == Moves(tid, m + n)
  {
  }

  lemma TwoMoves(cfg: Config, s: State, t: State, u: State, tid: nat)
    requires Goes(cfg, s, Move(tid), t) && Goes(cfg, t, Move(tid), u)
    ensures Leads(cfg, s, Moves(tid, 2), u)
  {
    TraceLeads(cfg, [s, t, u], Moves(tid, 2));
  }

  lemma OneMove(cfg: Config, s: State, t: State, tid: nat)
    requires Goes(cfg, s, Move(tid), t)
    ensures Leads(cfg, s, Moves(tid, 1), t)
  {
    TraceLeads(cfg, [s, t], Moves(tid, 1));
  }

  lemma MovesChain(cfg: Config, s: State, tid: nat, m: nat, t: State, n: nat, u: State)
    requires Leads(cfg, s, Moves(tid, m), t) && Leads(cfg, t, Moves(tid, n), u)
    ensures Leads(cfg, s, Moves(tid, m + n), u)
  {
    LeadsChain(cfg, s, Moves(tid, m), t, Moves(tid, n), u);
    MovesConcat(tid, m, n);
  }

  /** A touch that gets the mutex, up to its save. */
  lemma TouchLooks(cfg: Config, s: State, tid: nat)
    requires tid < |s.threads| && s.threads[tid].TouchLock? && s.lock == []
    ensures var t := s.threads[tid];
            Leads(cfg, s, Moves(tid, 2),
                  s.(threads := s.threads[tid := TouchSave(t.imsi, t.now, t.expires, t.imsi in s.store)],
                     lock := [tid]))
  {
    var t := s.threads[tid];
    var t2 := TouchSave(t.imsi, t.now, t.expires, t.imsi in s.store);
    var s1 := s.(threads := s.threads[tid := TouchExists(t.imsi, t.now, t.expires)], lock := [tid]);
    var s2 := s1.(threads := s1.threads[tid := t2]);
    LockStep(cfg, s, tid);
    QuietStep(cfg, s1, tid, Nothing, t2);
    TwoMoves(cfg, s, s1, s2, tid);
    assert s2.threads == s.threads[tid := t2];
  }

  /** What a thread standing before its CDR write leaves behind, once it has released the mutex. */
  function Recorded(s: State, tid: nat): State
    requires tid < |s.threads| && (s.threads[tid].TouchRecord? || s.threads[tid].OffRecord?)
  {
    var t := s.threads[tid];
    s.(threads := s.threads[tid := if t.TouchRecord? then UdpLoop else OffSleep(t.removed)], lock := [],
       log := s.log + [RecordOf(s.clock, t)])
  }

  lemma RecordAndUnlock(cfg: Config, s: State, tid: nat)
    requires tid < |s.threads| && (s.threads[tid].TouchRecord? || s.threads[tid].OffRecord?)
    ensures Leads(cfg, s, Moves(tid, 2), Recorded(s, tid))
  {
    var t := s.threads[tid];
    var s1 := s.(threads := s.threads[tid := if t.TouchRecord? then TouchUnlock else OffUnlock(t.removed)],
                 log := s.log + [RecordOf(s.clock, t)]);
    var s2 := Recorded(s, tid);
    assert Goes(cfg, s, Move(tid), s1) by {
      RecordStep(cfg, s, tid);
    }
    assert Goes(cfg, s1, Move(tid), s2) by {
      UnlockStep(cfg, s1, tid);
      assert s1.threads[tid := s2.threads[tid]] == s2.threads;
    }
    TwoMoves(cfg, s, s1, s2, tid);
  }

  /** What a touch of an IMSI that is not stored leaves behind at its save. */
  function SavedNew(s: State, tid: nat): State
    requires tid < |s.threads| && s.threads[tid].TouchSave?
  {
    var t := s.threads[tid];
    s.(threads := s.threads[tid := TouchRecord(t.imsi, t.now)], store := s.store[t.imsi := Session(t.now, t.expires)],
       stale := s.stale + Once(t.expires <= s.clock, t.imsi))
  }

  lemma SaveToUnlock(cfg: Config, s: State, tid: nat)
    requires tid < |s.threads| && s.threads[tid].TouchSave? && !s.threads[tid].known
    ensures Leads(cfg, s, Moves(tid, 3), Recorded(SavedNew(s, tid), tid))
  {
    var s1 := SavedNew(s, tid);
    assert Leads(cfg, s, Moves(tid, 1), s1) by {
      SaveStep(cfg, s, tid);
      OneMove(cfg, s, s1, tid);
    }
    RecordAndUnlock(cfg, s1, tid);
    MovesChain(cfg, s, tid, 1, s1, 2, Recorded(s1, tid));
  }

  lemma LandedIsRecorded(s: State, tid: nat)
    requires tid < |s.threads| && s.threads[tid].TouchLock? && s.lock == []
    ensures var t := s.threads[tid];
            var u := s.(threads := s.threads[tid := TouchSave(t.imsi, t.now, t.expires, false)], lock := [tid]);
            Recorded(SavedNew(u, tid), tid) == Landed(s, tid)
  {
    var t := s.threads[tid];
    var u := s.(threads := s.threads[tid := TouchSave(t.imsi, t.now, t.expires, false)], lock := [tid]);
    assert Recorded(SavedNew(u, tid), tid).threads == Landed(s, tid).threads;
  }

  /** A touch that gets the mutex with its IMSI not stored. */
  lemma TouchLands(cfg: Config, s: State, tid: nat)
    requires tid < |s.threads| && s.threads[tid].TouchLock? && s.lock == [] && s.threads[tid].imsi !in s.store
    ensures Leads(cfg, s, Moves(tid, 5), Landed(s, tid))
  {
    var t := s.threads[tid];
    var s1 := s.(threads := s.threads[tid := TouchSave(t.imsi, t.now, t.expires, false)], lock := [tid]);
    TouchLooks(cfg, s, tid);
    SaveToUnlock(cfg, s1, tid);
    LandedIsRecorded(s, tid);
    MovesChain(cfg, s, tid, 2, s1, 3, Landed(s, tid));
  }

  lemma RefreshStep(cfg: Config, s: State, tid: nat)
    requires tid < |s.threads| && s.threads[tid].TouchSave? && s.threads[tid].known && s.threads[tid].imsi in s.store
    ensures var t := s.threads[tid];
            Goes(cfg, s, Move(tid), s.(threads := s.threads[tid := TouchUnlock],
                                       store := s.store[t.imsi := Session(t.now, t.expires)],
                                       stale := s.stale + Once(t.expires <= s.clock, t.imsi)))
  {
  }

  lemma RefreshEnds(cfg: Config, s: State, tid: nat)
    requires tid < |s.threads| && s.threads[tid].TouchSave? && s.threads[tid].known && s.threads[tid].imsi in s.store
    ensures var t := s.threads[tid];
            Leads(cfg, s, Moves(tid, 2),
                  s.(threads := s.threads[tid := UdpLoop], lock := [],
                     store := s.store[t.imsi := Session(t.now, t.expires)],
                     stale := s.stale + Once(t.expires <= s.clock, t.imsi)))
  {
    var t := s.threads[tid];
    var s1 := s.(threads := s.threads[tid := TouchUnlock], store := s.store[t.imsi := Session(t.now, t.expires)],
                 stale := s.stale + Once(t.expires <= s.clock, t.imsi));
    var s2 := s1.(threads := s1.threads[tid := UdpLoop], lock := []);
    RefreshStep(cfg, s, tid);
    UnlockStep(cfg, s1, tid);
    TwoMoves(cfg, s, s1, s2, tid);
    assert s2.threads == s.threads[tid := UdpLoop];
  }

  /** What a touch that refreshes a session leaves behind. */
  function Refreshed(s: State, tid: nat): State
    requires tid < |s.threads| && s.threads[tid].TouchLock?
  {
    var t := s.threads[tid];
    s.(store := s.store[t.imsi := Session(t.now, t.expires)],
       threads := s.threads[tid := UdpLoop],
       stale := s.stale + Once(t.expires <= s.clock, t.imsi))
  }

  /** A touch that gets the mutex with its IMSI stored. */
  lemma RefreshLands(cfg: Config, s: State, tid: nat)
    requires tid < |s.threads| && s.threads[tid].TouchLock? && s.lock == [] && s.threads[tid].imsi in s.store
    ensures Leads(cfg, s, Moves(tid, 4), Refreshed(s, tid))
  {
    var t := s.threads[tid];
    var s1 := s.(threads := s.threads[tid := TouchSave(t.imsi, t.now, t.expires, t.imsi in s.store)], lock := [tid]);
    assert s1.threads[tid := UdpLoop] == s.threads[tid := UdpLoop];
    TouchLooks(cfg, s, tid);
    RefreshEnds(cfg, s1, tid);
    MovesChain(cfg, s, tid, 2, s1, 2, Refreshed(s, tid));
  }

  /** The cleaner deletes an expired session that it has not listed. */
  lemma DeletesUnlisted(cfg: Config, s: State, imsi: string)
    requires s.cleaner.CleanRecord? && s.cleaner.next == |s.cleaner.listed| && imsi !in s.cleaner.listed
    requires imsi in s.store && s.store[imsi].expires < s.cleaner.now
    ensures CanHappen(cfg, s, Sweep([]))
    ensures var t := SweepStep(cfg, s, []);
            && imsi !in t.store && t.lost[imsi] == s.lost[imsi] + 1 && t.surplus[imsi] == s.surplus[imsi]
            && t.revived == s.revived && t.lock == s.lock && t.cleaner == CleanNow && t.log == s.log
  {
    var gone, listed := ExpiredPart(cfg.kind, s.store, s.cleaner.now).Keys, SetOf(s.cleaner.listed);
    assert imsi in gone - listed && imsi !in listed - gone;
    assert multiset(gone - listed)[imsi] == 1 && multiset(listed - gone)[imsi] == 0;
  }

  /** A save may come after its own expiry, if its thread was held up before the mutex. When the cleaner
      has listed by then, the session vanishes with a "created" record and no "expired" one. */
  lemma StaleSaveIsLost(cfg: Config, s: State, tid: nat)
    requires tid < |s.threads| && s.threads[tid].TouchLock? && s.lock == [] && s.threads[tid].imsi !in s.store
    requires s.cleaner.CleanRecord? && s.cleaner.next == |s.cleaner.listed|
    requires s.threads[tid].imsi !in s.cleaner.listed && s.threads[tid].expires < s.cleaner.now
    ensures CanRun(cfg, s, Moves(tid, 5) + [Sweep([])])
    ensures var imsi, t := s.threads[tid].imsi, Reach(cfg, s, Moves(tid, 5) + [Sweep([])]);
            && imsi !in t.store && t.lost[imsi] == s.lost[imsi] + 1 && t.surplus[imsi] == s.surplus[imsi]
            && t.revived == s.revived && t.lock == [] && t.cleaner == CleanNow
            && t.log == s.log + [Entry(s.threads[tid].now, imsi, Created)]
  {
    TouchLands(cfg, s, tid);
    RunConcat(cfg, s, Moves(tid, 5), [Sweep([])]);
    RunOne(cfg, Landed(s, tid), Sweep([]));
    DeletesUnlisted(cfg, Landed(s, tid), s.threads[tid].imsi);
  }

  /** A packet that is let in, up to the mutex. */
  lemma ReceiveToLock(cfg: Config, s: State, tid: nat, bytes: seq<Byte>) returns (es: seq<Event>)
    requires tid < |s.threads| && s.threads[tid] == UdpReceive
    requires bytes != [] && Decode(Received(bytes)) !in cfg.blocked
    ensures var t' := TouchLock(Decode(Received(bytes)), s.clock, s.clock + cfg.timeout);
            Leads(cfg, s, es, s.(threads := s.threads[tid := t']))
  {
    var imsi := Decode(Received(bytes));
    var s1 := s.(threads := s.threads[tid := TouchNow(imsi)]);
    var s2 := s.(threads := s.threads[tid := TouchExpires(imsi, s.clock)]);
    var s3 := s.(threads := s.threads[tid := TouchLock(imsi, s.clock, s.clock + cfg.timeout)]);
    assert Goes(cfg, s, Step(tid, Datagram(bytes)), s1) by {
      QuietStep(cfg, s, tid, Datagram(bytes), TouchNow(imsi));
    }
    assert Goes(cfg, s1, Move(tid), s2) by {
      QuietStep(cfg, s1, tid, Nothing, TouchExpires(imsi, s.clock));
      assert s1.threads[tid := s2.threads[tid]] == s2.threads;
    }
    assert Goes(cfg, s2, Move(tid), s3) by {
      QuietStep(cfg, s2, tid, Nothing, s3.threads[tid]);
      assert s2.threads[tid := s3.threads[tid]] == s3.threads;
    }
    es := [Step(tid, Datagram(bytes)), Move(tid), Move(tid)];
    TraceLeads(cfg, [s, s1, s2, s3], es);
  }

  /** The same, from the test of running_ on. */
  lemma LoopToLock(cfg: Config, s: State, tid: nat, bytes: seq<Byte>) returns (es: seq<Event>)
    requires tid < |s.threads| && s.threads[tid] == UdpLoop && s.running
    requires bytes != [] && Decode(Received(bytes)) !in cfg.blocked
    ensures var t' := TouchLock(Decode(Received(bytes)), s.clock, s.clock + cfg.timeout);
            Leads(cfg, s, es, s.(threads := s.threads[tid := t']))
  {
    var s1 := s.(threads := s.threads[tid := UdpReceive]);
    var t' := TouchLock(Decode(Received(bytes)), s.clock, s.clock + cfg.timeout);
    var late := ReceiveToLock(cfg, s1, tid, bytes);
    assert s1.threads[tid := t'] == s.threads[tid := t'];
    QuietStep(cfg, s, tid, Nothing, UdpReceive);
    RunOne(cfg, s, Move(tid));
    es := [Move(tid)] + late;
    LeadsChain(cfg, s, [Move(tid)], s1, late, s.(threads := s.threads[tid := t']));
  }

  lemma Passes(cfg: Config, s: State, seconds: nat)
    ensures Leads(cfg, s, [Pass(seconds)], s.(clock := s.clock + seconds))
  {
    RunOne(cfg, s, Pass(seconds));
  }

  lemma StopStep(cfg: Config, s: State, tid: nat)
    requires tid < |s.threads| && s.threads[tid] == StopUdp
    ensures Goes(cfg, s, Move(tid), s.(running := false, threads := s.threads[tid := StopCheck]))
  {
  }

  /** A stop handler, up to its choice of an active session. */
  lemma StopToLock(cfg: Config, s: State, tid: nat, imsi: string) returns (es: seq<Event>)
    requires tid < |s.threads| && s.threads[tid] == StopUdp && s.lock == []
    requires cfg.rate >= 1 && imsi in Active(s.store, s.clock)
    ensures Leads(cfg, s, es, s.(running := false, threads := s.threads[tid := OffLock(imsi, 0)]))
  {
    var s1 := s.(running := false, threads := s.threads[tid := StopCheck]);
    var s2 := s1.(threads := s.threads[tid := OffPick(0)]);
    var s3 := s1.(threads := s.threads[tid := OffLock(imsi, 0)]);
    assert Goes(cfg, s, Move(tid), s1) by {
      StopStep(cfg, s, tid);
    }
    assert Goes(cfg, s1, Move(tid), s2) by {
      QuietStep(cfg, s1, tid, Nothing, OffPick(0));
      assert s1.threads[tid := OffPick(0)] == s2.threads;
    }
    assert Goes(cfg, s2, Step(tid, Pick(imsi)), s3) by {
      QuietStep(cfg, s2, tid, Pick(imsi), OffLock(imsi, 0));
      assert s2.threads[tid := OffLock(imsi, 0)] == s3.threads;
    }
    es := [Move(tid), Move(tid), Step(tid, Pick(imsi))];
    TraceLeads(cfg, [s, s1, s2, s3], es);
  }

  /** What a turn of offload_rate leaves behind, from its second locked block on. */
  function Removed(s: State, tid: nat): State
    requires tid < |s.threads| && s.threads[tid].OffLock?
  {
    var t := s.threads[tid];
    s.(store := s.store - {t.imsi},
       log := s.log + [Entry(s.clock, t.imsi, Expired)],
       threads := s.threads[tid := OffSleep(t.removed)],
       surplus := s.surplus + Once(t.imsi !in s.store, t.imsi))
  }

  /** What it leaves behind at its deletion, holding the mutex. */
  function Deleted(s: State, tid: nat): State
    requires tid < |s.threads| && s.threads[tid].OffLock?
  {
    var t := s.threads[tid];
    s.(threads := s.threads[tid := OffRecord(t.imsi, t.removed)], lock := [tid], store := s.store - {t.imsi},
       surplus := s.surplus + Once(t.imsi !in s.store, t.imsi))
  }

  lemma LockAndDelete(cfg: Config, s: State, tid: nat)
    requires tid < |s.threads| && s.threads[tid].OffLock? && s.lock == []
    ensures Leads(cfg, s, Moves(tid, 2), Deleted(s, tid))
  {
    var t := s.threads[tid];
    var s1 := s.(threads := s.threads[tid := OffDelete(t.imsi, t.removed)], lock := [tid]);
    var s2 := Deleted(s, tid);
    assert Goes(cfg, s, Move(tid), s1) by {
      LockStep(cfg, s, tid);
    }
    assert Goes(cfg, s1, Move(tid), s2) by {
      DeleteStep(cfg, s1, tid);
      assert s1.threads[tid := s2.threads[tid]] == s2.threads;
    }
    TwoMoves(cfg, s, s1, s2, tid);
  }

  lemma RemovedIsRecorded(s: State, tid: nat)
    requires tid < |s.threads| && s.threads[tid].OffLock? && s.lock == []
    ensures Recorded(Deleted(s, tid), tid) == Removed(s, tid)
  {
    assert Recorded(Deleted(s, tid), tid).threads == Removed(s, tid).threads;
  }

  lemma OffloadLands(cfg: Config, s: State, tid: nat)
    requires tid < |s.threads| && s.threads[tid].OffLock? && s.lock == []
    ensures Leads(cfg, s, Moves(tid, 4), Removed(s, tid))
  {
    LockAndDelete(cfg, s, tid);
    RecordAndUnlock(cfg, Deleted(s, tid), tid);
    RemovedIsRecorded(s, tid);
    MovesChain(cfg, s, tid, 2, Deleted(s, tid), 2, Removed(s, tid));
  }

  /** Two stop handlers that have chosen the same session both write "expired" for it: between
      interleaved operations the records of an IMSI need not alternate. */
  lemma TwoStopsRecordTwice(cfg: Config, s: State, a: nat, b: nat)
    requires a < |s.threads| && b < |s.threads| && a != b && s.lock == []
    requires s.threads[a].OffLock? && s.threads[b].OffLock? && s.threads[a].imsi == s.threads[b].imsi
    ensures var imsi, es := s.threads[a].imsi, Moves(a, 4) + Moves(b, 4);
            && CanRun(cfg, s, es)
            && Reach(cfg, s, es).log == s.log + [Entry(s.clock, imsi, Expired), Entry(s.clock, imsi, Expired)]
  {
    var t := Removed(s, a);
    assert t.threads[b] == s.threads[b] && t.lock == s.lock && t.clock == s.clock;
    OffloadLands(cfg, s, a);
    OffloadLands(cfg, t, b);
    LeadsChain(cfg, s, Moves(a, 4), t, Moves(b, 4), Removed(t, b));
    RecordedTwice(s.log, t.log, Removed(t, b).log, Entry(s.clock, s.threads[a].imsi, Expired));
  }

  lemma RecordedTwice(log: seq<Entry>, once: seq<Entry>, twice: seq<Entry>, e: Entry)
    requires once == log + [e] && twice == once + [e]
    ensures twice == log + [e, e]
  {
  }
}
