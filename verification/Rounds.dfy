/** What one touch, one call of offload_rate and one round of the cleaner do, over every interleaving, while other
    threads come in between any of their steps. */
module Rounds {
  import opened SessionTimes
  import opened Interleaved

  // Calls of offload_rate.

  /** The thread is inside a call of offload_rate. */
  predicate Offloads(t: Thread) {
    t.OffPick? || t.OffLock? || t.OffDelete? || t.OffRecord? || t.OffUnlock? || t.OffSleep?
  }

  /** How many sessions thread `tid` has deleted in `es` since it last looked, in graceful_stop, for active sessions. */
  function Deletions(cfg: Config, s: State, es: seq<Event>, tid: nat): nat {
    if es == [] then 0
    else
      var init, e := es[..|es| - 1], es[|es| - 1];
      var threads := Reach(cfg, s, init).threads;
      if e.Step? && e.tid == tid && tid < |threads| then
        if threads[tid] == StopCheck then 0
        else Deletions(cfg, s, init, tid) + if threads[tid].OffDelete? then 1 else 0
      else Deletions(cfg, s, init, tid)
  }

  /** The count that a thread carries is the number of sessions it has deleted in this call, and is below the rate. */
  predicate Counts(cfg: Config, t: Thread, deletions: nat) {
    match t
    case OffPick(removed) => removed == deletions < cfg.rate
    case OffLock(_, removed) => removed == deletions < cfg.rate
    case OffDelete(_, removed) => removed == deletions < cfg.rate
    case OffRecord(_, removed) => removed + 1 == deletions <= cfg.rate
    case OffUnlock(removed) => removed + 1 == deletions <= cfg.rate
    case OffSleep(removed) => removed + 1 == deletions <= cfg.rate
    case StopCheck => deletions <= cfg.rate
    case StopDone => deletions <= cfg.rate
    case _ => deletions == 0
  }

  lemma StepCounts(cfg: Config, s: State, t: Thread, input: Input, deletions: nat)
    requires Counts(cfg, t, deletions) && CanStep(cfg, s, t, input)
    ensures Counts(cfg, ThreadAfter(cfg, s, t, input),
                   if t == StopCheck then 0 else deletions + if t.OffDelete? then 1 else 0)
  {
  }

  /** An event that is not a step of thread `tid` leaves it where it stands. */
  lemma OthersLeaveThread(cfg: Config, s: State, e: Event, tid: nat)
    requires CanHappen(cfg, s, e) && tid < |s.threads| && !(e.Step? && e.tid == tid)
    ensures |Next(cfg, s, e).threads| == |s.threads| && Next(cfg, s, e).threads[tid] == s.threads[tid]
  {
    match e
    case Pass(_) =>
    case Sweep(order) => SweepOnlyRemoves(cfg, s, order);
    case Step(i, _) =>
  }

  lemma {:induction false} RunCounts(cfg: Config, s: State, es: seq<Event>, tid: nat)
    requires IsStart(s) && CanRun(cfg, s, es) && tid < |s.threads|
    ensures |Reach(cfg, s, es).threads| == |s.threads|
    ensures Counts(cfg, Reach(cfg, s, es).threads[tid], Deletions(cfg, s, es, tid))
    decreases |es|
  {
    if es != [] {
      var init, e := es[..|es| - 1], es[|es| - 1];
      RunCounts(cfg, s, init, tid);
      var t := Reach(cfg, s, init);
      if e.Step? && e.tid == tid {
        StepCounts(cfg, t, t.threads[tid], e.input, Deletions(cfg, s, init, tid));
      } else {
        OthersLeaveThread(cfg, t, e, tid);
      }
    }
  }

  /** In every run a stop handler deletes at most `rate` sessions between two looks of graceful_stop, and what it has
      counted is below the rate wherever it still may delete. */
  lemma AtMostRatePerCall(cfg: Config, s: State, es: seq<Event>, tid: nat)
    requires IsStart(s) && CanRun(cfg, s, es) && tid < |s.threads|
    ensures Deletions(cfg, s, es, tid) <= cfg.rate
    ensures |Reach(cfg, s, es).threads| == |s.threads|
    ensures var t := Reach(cfg, s, es).threads[tid];
            && (t.OffPick? || t.OffLock? || t.OffDelete? || t.OffRecord? || t.OffUnlock? || t.OffSleep? ==>
                  t.removed < cfg.rate)
            && (t.OffPick? || t.OffLock? || t.OffDelete? ==> t.removed == Deletions(cfg, s, es, tid))
  {
    RunCounts(cfg, s, es, tid);
  }

  /** A call of offload_rate ends either with exactly `rate` sessions deleted, after the last pause, or with fewer, at a
      choice that finds no session active. */
  lemma CallEndsExactly(cfg: Config, s: State, es: seq<Event>, tid: nat, input: Input)
    requires IsStart(s) && CanRun(cfg, s, es) && tid < |s.threads|
    requires CanHappen(cfg, Reach(cfg, s, es), Step(tid, input))
    requires Offloads(Reach(cfg, s, es).threads[tid])
    ensures var t, n := Reach(cfg, s, es), Deletions(cfg, s, es, tid);
            var t' := Next(cfg, t, Step(tid, input));
            && t'.threads[tid] == StopCheck ==>
                 if t.threads[tid].OffPick? then n < cfg.rate && NoneActive(t)
                 else t.threads[tid].OffSleep? && n == cfg.rate
    ensures var t, n := Reach(cfg, s, es), Deletions(cfg, s, es, tid);
            var t' := Next(cfg, t, Step(tid, input));
            t'.threads[tid] != StopCheck ==>
              Offloads(t'.threads[tid]) && (t.threads[tid].OffSleep? ==> n < cfg.rate)
  {
    RunCounts(cfg, s, es, tid);
  }

  /** From its first look on, a stop handler works with the UDP server told to stop. */
  predicate PastUdpStop(t: Thread) {
    t == StopCheck || Offloads(t) || t == StopDone
  }

  lemma StepPastUdpStop(cfg: Config, s: State, t: Thread, input: Input)
    requires CanStep(cfg, s, t, input) && PastUdpStop(ThreadAfter(cfg, s, t, input))
    ensures PastUdpStop(t) || t == StopUdp
  {
  }

  lemma NextKeepsStopped(cfg: Config, s: State, e: Event, tid: nat)
    requires CanHappen(cfg, s, e) && tid < |s.threads| && (PastUdpStop(s.threads[tid]) ==> !s.running)
    ensures var s' := Next(cfg, s, e); |s'.threads| == |s.threads| && (PastUdpStop(s'.threads[tid]) ==> !s'.running)
  {
    if e.Step? && e.tid == tid {
      if PastUdpStop(ThreadAfter(cfg, s, s.threads[tid], e.input)) {
        StepPastUdpStop(cfg, s, s.threads[tid], e.input);
      }
    } else {
      OthersLeaveThread(cfg, s, e, tid);
      if e.Sweep? {
        SweepOnlyRemoves(cfg, s, e.order);
      }
    }
  }

  /** In every run the UDP server is told to stop before any session is offloaded. */
  lemma {:induction false} UdpStopsFirst(cfg: Config, s: State, es: seq<Event>, tid: nat)
    requires IsStart(s) && CanRun(cfg, s, es) && tid < |s.threads|
    ensures |Reach(cfg, s, es).threads| == |s.threads|
    ensures PastUdpStop(Reach(cfg, s, es).threads[tid]) ==> !Reach(cfg, s, es).running
    decreases |es|
  {
    if es != [] {
      UdpStopsFirst(cfg, s, es[..|es| - 1], tid);
      NextKeepsStopped(cfg, Reach(cfg, s, es[..|es| - 1]), es[|es| - 1], tid);
    }
  }

  // Touches.

  /** The clock when thread `tid` last took its first reading, in now_str. */
  function FirstReading(cfg: Config, s: State, es: seq<Event>, tid: nat): nat {
    if es == [] then 0
    else
      var init, e := es[..|es| - 1], es[|es| - 1];
      var t := Reach(cfg, s, init);
      if e.Step? && e.tid == tid && tid < |t.threads| && t.threads[tid].TouchNow? then t.clock
      else FirstReading(cfg, s, init, tid)
  }

  /** The clock when it last took its second reading, in expires_str. */
  function SecondReading(cfg: Config, s: State, es: seq<Event>, tid: nat): nat {
    if es == [] then 0
    else
      var init, e := es[..|es| - 1], es[|es| - 1];
      var t := Reach(cfg, s, init);
      if e.Step? && e.tid == tid && tid < |t.threads| && t.threads[tid].TouchExpires? then t.clock
      else SecondReading(cfg, s, init, tid)
  }

  /** The stamps that a thread carries are its readings. */
  predicate CarriesReadings(t: Thread, first: nat, expires: nat) {
    match t
    case TouchExpires(_, now) => now == first
    case TouchLock(_, now, e) => now == first && e == expires
    case TouchExists(_, now, e) => now == first && e == expires
    case TouchSave(_, now, e, _) => now == first && e == expires
    case TouchRecord(_, now) => now == first
    case _ => true
  }

  lemma StepReads(cfg: Config, s: State, t: Thread, input: Input, first: nat, expires: nat)
    requires CarriesReadings(t, first, expires)
    ensures CarriesReadings(ThreadAfter(cfg, s, t, input), if t.TouchNow? then s.clock else first,
                            if t.TouchExpires? then s.clock + cfg.timeout else expires)
  {
  }

  lemma {:induction false} RunReads(cfg: Config, s: State, es: seq<Event>, tid: nat)
    requires IsStart(s) && CanRun(cfg, s, es) && tid < |s.threads|
    ensures |Reach(cfg, s, es).threads| == |s.threads|
    ensures CarriesReadings(Reach(cfg, s, es).threads[tid], FirstReading(cfg, s, es, tid),
                            SecondReading(cfg, s, es, tid) + cfg.timeout)
    decreases |es|
  {
    if es != [] {
      var init, e := es[..|es| - 1], es[|es| - 1];
      RunReads(cfg, s, init, tid);
      var t := Reach(cfg, s, init);
      if e.Step? && e.tid == tid {
        StepReads(cfg, t, t.threads[tid], e.input, FirstReading(cfg, s, init, tid),
                  SecondReading(cfg, s, init, tid) + cfg.timeout);
      } else {
        OthersLeaveThread(cfg, t, e, tid);
      }
    }
  }

  lemma SaveStamps(cfg: Config, s: State, tid: nat, input: Input, first: nat, expires: nat)
    requires tid < |s.threads| && s.threads[tid].TouchSave? && CarriesReadings(s.threads[tid], first, expires)
    ensures var imsi, store := s.threads[tid].imsi, ThreadStep(cfg, s, tid, input).store;
            imsi in store && store[imsi] == Session(first, expires)
  {
  }

  lemma RecordStamps(cfg: Config, s: State, tid: nat, input: Input, first: nat, expires: nat)
    requires tid < |s.threads| && s.threads[tid].TouchRecord? && CarriesReadings(s.threads[tid], first, expires)
    ensures ThreadStep(cfg, s, tid, input).log == s.log + [Entry(first, s.threads[tid].imsi, Created)]
  {
  }

  /** In every run, however long a touch takes, the session it saves is stamped with its first reading of the clock and
      its second one plus the timeout. */
  lemma SaveKeepsItsTimes(cfg: Config, s: State, es: seq<Event>, tid: nat, input: Input)
    requires IsStart(s) && CanRun(cfg, s, es) && tid < |s.threads|
    ensures |Reach(cfg, s, es).threads| == |s.threads|
    ensures var t := Reach(cfg, s, es);
            t.threads[tid].TouchSave? ==>
              var imsi, store := t.threads[tid].imsi, ThreadStep(cfg, t, tid, input).store;
              && imsi in store && store[imsi].created == FirstReading(cfg, s, es, tid)
              && store[imsi].expires == SecondReading(cfg, s, es, tid) + cfg.timeout
  {
    RunReads(cfg, s, es, tid);
    var t := Reach(cfg, s, es);
    if t.threads[tid].TouchSave? {
      SaveStamps(cfg, t, tid, input, FirstReading(cfg, s, es, tid), SecondReading(cfg, s, es, tid) + cfg.timeout);
    }
  }

  /** And its "created" record carries the first. */
  lemma RecordKeepsItsTime(cfg: Config, s: State, es: seq<Event>, tid: nat, input: Input)
    requires IsStart(s) && CanRun(cfg, s, es) && tid < |s.threads|
    ensures |Reach(cfg, s, es).threads| == |s.threads|
    ensures var t := Reach(cfg, s, es);
            t.threads[tid].TouchRecord? ==>
              ThreadStep(cfg, t, tid, input).log ==
              t.log + [Entry(FirstReading(cfg, s, es, tid), t.threads[tid].imsi, Created)]
  {
    RunReads(cfg, s, es, tid);
    var t := Reach(cfg, s, es);
    if t.threads[tid].TouchRecord? {
      RecordStamps(cfg, t, tid, input, FirstReading(cfg, s, es, tid), SecondReading(cfg, s, es, tid) + cfg.timeout);
    }
  }

  // Rounds of the cleaner.

  /** When the cleaner last read its clock. */
  function RoundTime(cfg: Config, s: State, es: seq<Event>): nat {
    if es == [] then 0
    else
      var init, e := es[..|es| - 1], es[|es| - 1];
      var t := Reach(cfg, s, init);
      if e.Sweep? && t.cleaner == CleanNow then t.clock else RoundTime(cfg, s, init)
  }

  /** What the cleaner's steps have appended to the log since then. */
  function RoundRecords(cfg: Config, s: State, es: seq<Event>): seq<Entry> {
    if es == [] then []
    else
      var init, e := es[..|es| - 1], es[|es| - 1];
      var t := Reach(cfg, s, init);
      if !e.Sweep? then RoundRecords(cfg, s, init)
      else if t.cleaner == CleanNow then []
      else RoundRecords(cfg, s, init) + Appended(t.log, Next(cfg, t, e).log)
  }

  function Appended(log: seq<Entry>, log': seq<Entry>): seq<Entry> {
    if |log| <= |log'| then log'[|log|..] else []
  }

  /** The records of a round so far: of the sessions listed, in the order of the list, at the round's time. */
  predicate RoundSoFar(cleaner: Cleaner, time: nat, records: seq<Entry>) {
    match cleaner
    case CleanNow => AllAt(records, time)
    case CleanLoad(now) => now == time && records == []
    case CleanRecord(now, listed, next) =>
      && now == time && |records| == next <= |listed|
      && forall i | 0 <= i < next :: records[i] == Entry(time, listed[i], Expired)
  }

  predicate AllAt(records: seq<Entry>, time: nat) {
    forall e | e in records :: e.at == time && e.action == Expired
  }

  lemma RecordGoesOn(cfg: Config, s: State, order: seq<string>, time: nat, records: seq<Entry>)
    requires RoundSoFar(s.cleaner, time, records) && s.cleaner.CleanRecord? && s.cleaner.next < |s.cleaner.listed|
    ensures RoundSoFar(SweepStep(cfg, s, order).cleaner, time,
                       records + [Entry(s.cleaner.now, s.cleaner.listed[s.cleaner.next], Expired)])
  {
  }

  lemma SweepGoesOn(cfg: Config, s: State, order: seq<string>, time: nat, records: seq<Entry>)
    requires RoundSoFar(s.cleaner, time, records) && s.cleaner != CleanNow
    ensures var s' := SweepStep(cfg, s, order);
            RoundSoFar(s'.cleaner, time, records + Appended(s.log, s'.log))
  {
    var s' := SweepStep(cfg, s, order);
    if s.cleaner.CleanRecord? && s.cleaner.next < |s.cleaner.listed| {
      RecordGoesOn(cfg, s, order, time, records);
      assert Appended(s.log, s'.log) == [Entry(s.cleaner.now, s.cleaner.listed[s.cleaner.next], Expired)];
    } else {
      assert Appended(s.log, s'.log) == [];
      assert records + [] == records;
    }
  }

  /** In every run, however long a round takes, all its records carry the time at which the cleaner read its clock at
      its start, and they are of the sessions that it listed, in that order. */
  lemma {:induction false} RoundKeepsItsTime(cfg: Config, s: State, es: seq<Event>)
    requires IsStart(s) && CanRun(cfg, s, es)
    ensures RoundSoFar(Reach(cfg, s, es).cleaner, RoundTime(cfg, s, es), RoundRecords(cfg, s, es))
    ensures AllAt(RoundRecords(cfg, s, es), RoundTime(cfg, s, es))
    decreases |es|
  {
    if es != [] {
      var init, e := es[..|es| - 1], es[|es| - 1];
      RoundKeepsItsTime(cfg, s, init);
      var t := Reach(cfg, s, init);
      if e.Sweep? && t.cleaner != CleanNow {
        SweepGoesOn(cfg, t, e.order, RoundTime(cfg, s, init), RoundRecords(cfg, s, init));
      }
    }
  }
}
