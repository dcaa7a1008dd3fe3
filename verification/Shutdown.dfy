/** The /stop handler under interleaving: UDP stop, then graceful_stop, while the UDP worker may still have
    a packet in hand, the cleaner sweeps, and the clock runs. */
module Shutdown {
  import opened Bcd
  import opened SessionTimes
  import opened Interleaved
  import opened Races

  // After the UDP stop, each worker takes at most one more packet.

  predicate IsReceive(s: State, e: Event, tid: nat) {
    e.Step? && e.tid == tid && tid < |s.threads| && s.threads[tid] == UdpReceive
  }

  /** How often worker `tid` comes back from recvfrom in the run. */
  function Receives(cfg: Config, s: State, es: seq<Event>, tid: nat): nat {
    if es == [] then 0
    else
      var init := es[..|es| - 1];
      Receives(cfg, s, init, tid) + (if IsReceive(Reach(cfg, s, init), es[|es| - 1], tid) then 1 else 0)
  }

  function MayReceive(s: State, tid: nat): nat {
    if tid < |s.threads| && s.threads[tid] == UdpReceive then 1 else 0
  }

  /** With running_ cleared, no worker goes back to recvfrom. */
  lemma StoppedThread(cfg: Config, s: State, t: Thread, input: Input)
    requires !s.running
    ensures ThreadAfter(cfg, s, t, input) != UdpReceive
  {
  }

  lemma StoppedStep(cfg: Config, s: State, e: Event, tid: nat)
    requires !s.running
    ensures !Next(cfg, s, e).running
    ensures (if IsReceive(s, e, tid) then 1 else 0) + MayReceive(Next(cfg, s, e), tid) <= MayReceive(s, tid)
  {
    match e
    case Pass(_) =>
    case Sweep(order) => SweepOnlyRemoves(cfg, s, order);
    case Step(i, input) =>
      if i < |s.threads| {
        StoppedThread(cfg, s, s.threads[i], input);
      }
  }

  lemma {:induction false} AtMostOneMorePacket(cfg: Config, s: State, es: seq<Event>, tid: nat)
    requires !s.running && CanRun(cfg, s, es)
    ensures !Reach(cfg, s, es).running
    ensures Receives(cfg, s, es, tid) + MayReceive(Reach(cfg, s, es), tid) <= MayReceive(s, tid) <= 1
  {
    if es != [] {
      var init, e := es[..|es| - 1], es[|es| - 1];
      AtMostOneMorePacket(cfg, s, init, tid);
      StoppedStep(cfg, Reach(cfg, s, init), e, tid);
    }
  }

  // A measure that bounds the steps left.

  /** How far a UDP worker is from leaving, once running_ is false. */
  function UdpRank(t: Thread): nat {
    match t
    case UdpReceive => 9
    case TouchNow(_) => 8
    case TouchExpires(_, _) => 7
    case TouchLock(_, _, _) => 6
    case TouchExists(_, _, _) => 5
    case TouchSave(_, _, _, _) => 4
    case TouchRecord(_, _) => 3
    case TouchUnlock => 2
    case UdpLoop => 1
    case _ => 0
  }

  /** How far a stop handler is from its next removal, or from leaving when nothing is active. A handler that
      has chosen a session which is no longer active has a whole empty turn before it. */
  function StopRank(t: Thread, active: set<string>): nat {
    match t
    case StopUdp => 10
    case StopCheck => if active == {} then 1 else 4
    case OffPick(_) => if active == {} then 2 else 3
    case OffLock(imsi, _) => if imsi in active then 2 else 9
    case OffDelete(imsi, _) => if imsi in active then 1 else 8
    case OffRecord(_, _) => 7
    case OffUnlock(_) => 6
    case OffSleep(_) => 5
    case _ => 0
  }

  function UdpSum(ts: seq<Thread>): nat {
    if ts == [] then 0 else UdpSum(ts[..|ts| - 1]) + UdpRank(ts[|ts| - 1])
  }

  function StopSum(ts: seq<Thread>, active: set<string>): nat {
    if ts == [] then 0 else StopSum(ts[..|ts| - 1], active) + StopRank(ts[|ts| - 1], active)
  }

  lemma {:induction false} UdpSumUpdate(ts: seq<Thread>, i: nat, t: Thread)
    requires i < |ts|
    ensures UdpSum(ts[i := t]) + UdpRank(ts[i]) == UdpSum(ts) + UdpRank(t)
  {
    var init := ts[..|ts| - 1];
    if i < |ts| - 1 {
      UdpSumUpdate(init, i, t);
      assert ts[i := t][..|ts| - 1] == init[i := t];
    } else {
      assert ts[i := t][..|ts| - 1] == init;
    }
  }

  lemma {:induction false} StopSumUpdate(ts: seq<Thread>, i: nat, t: Thread, active: set<string>)
    requires i < |ts|
    ensures StopSum(ts[i := t], active) + StopRank(ts[i], active) == StopSum(ts, active) + StopRank(t, active)
  {
    var init := ts[..|ts| - 1];
    if i < |ts| - 1 {
      StopSumUpdate(init, i, t, active);
      assert ts[i := t][..|ts| - 1] == init[i := t];
    } else {
      assert ts[i := t][..|ts| - 1] == init;
    }
  }

  lemma {:induction false} StopSumBound(ts: seq<Thread>, active: set<string>)
    ensures StopSum(ts, active) <= 10 * |ts|
  {
    if ts != [] {
      StopSumBound(ts[..|ts| - 1], active);
    }
  }

  function ActiveSet(s: State): set<string> {
    Active(s.store, s.clock).Keys
  }

  /** What is still to come: every active session, twice every rank of a UDP worker. */
  function Load(s: State): nat {
    |ActiveSet(s)| + 2 * UdpSum(s.threads)
  }

  /** One unit of load outweighs all the stop handlers together. */
  function Measure(s: State): nat {
    (10 * |s.threads| + 1) * Load(s) + StopSum(s.threads, ActiveSet(s))
  }

  lemma LoadOutweighs(n: nat, load: nat, load': nat, rest: nat, rest': nat)
    requires load' < load && rest' <= 10 * n
    ensures (10 * n + 1) * load' + rest' < (10 * n + 1) * load + rest
  {
    assert (10 * n + 1) * load' <= (10 * n + 1) * (load - 1);
  }

  lemma LessLoad(s: State, s': State)
    requires |s'.threads| == |s.threads| && Load(s') < Load(s)
    ensures Measure(s') < Measure(s)
  {
    StopSumBound(s'.threads, ActiveSet(s'));
    LoadOutweighs(|s.threads|, Load(s), Load(s'), StopSum(s.threads, ActiveSet(s)), StopSum(s'.threads, ActiveSet(s')));
  }

  lemma SameLoad(s: State, s': State)
    requires |s'.threads| == |s.threads| && Load(s') == Load(s)
    ensures Measure(s') <= Measure(s) <==> StopSum(s'.threads, ActiveSet(s')) <= StopSum(s.threads, ActiveSet(s))
    ensures Measure(s') < Measure(s) <==> StopSum(s'.threads, ActiveSet(s')) < StopSum(s.threads, ActiveSet(s))
  {
  }

  lemma OneMoreAtMost(a: set<string>, b: set<string>, k: string)
    requires b <= a + {k}
    ensures |b| <= |a| + 1
  {
    if b != a + {k} {
      SmallerSubset(b, a + {k});
    }
    if k !in a {
      assert |a + {k}| == |a| + 1;
    } else {
      assert a + {k} == a;
    }
  }

  lemma UdpStepLightens(cfg: Config, s: State, tid: nat, input: Input)
    requires !s.running && tid < |s.threads| && CanStep(cfg, s, s.threads[tid], input) && UdpRank(s.threads[tid]) > 0
    ensures Measure(ThreadStep(cfg, s, tid, input)) < Measure(s)
  {
    var t, s' := s.threads[tid], ThreadStep(cfg, s, tid, input);
    UdpSumUpdate(s.threads, tid, s'.threads[tid]);
    assert UdpRank(s'.threads[tid]) < UdpRank(t);
    if t.TouchSave? {
      OneMoreAtMost(ActiveSet(s), ActiveSet(s'), t.imsi);
    } else {
      assert s'.store == s.store;
    }
    LessLoad(s, s');
  }

  lemma NoneActiveIsEmpty(s: State)
    ensures NoneActive(s) <==> ActiveSet(s) == {}
  {
    assert forall k | k in s.store && s.clock < s.store[k].expires :: k in ActiveSet(s);
  }

  /** Every step of a stop handler that does not remove an active session lowers its rank. */
  lemma StopRankDrops(cfg: Config, s: State, t: Thread, input: Input)
    requires cfg.rate >= 1 && CanStep(cfg, s, t, input) && UdpRank(t) == 0
    requires !(t.OffDelete? && t.imsi in ActiveSet(s))
    ensures StopRank(ThreadAfter(cfg, s, t, input), ActiveSet(s)) < StopRank(t, ActiveSet(s))
    ensures UdpRank(ThreadAfter(cfg, s, t, input)) == 0
  {
    NoneActiveIsEmpty(s);
  }

  lemma RemovalLightens(cfg: Config, s: State, tid: nat, input: Input)
    requires tid < |s.threads| && s.threads[tid].OffDelete? && s.threads[tid].imsi in ActiveSet(s)
    ensures Measure(ThreadStep(cfg, s, tid, input)) < Measure(s)
  {
    var t, s' := s.threads[tid], ThreadStep(cfg, s, tid, input);
    UdpSumUpdate(s.threads, tid, s'.threads[tid]);
    assert ActiveSet(s') == ActiveSet(s) - {t.imsi};
    SmallerSubset(ActiveSet(s'), ActiveSet(s));
    LessLoad(s, s');
  }

  lemma OtherStopStepKeepsActive(cfg: Config, s: State, tid: nat, input: Input)
    requires tid < |s.threads| && UdpRank(s.threads[tid]) == 0
    requires !(s.threads[tid].OffDelete? && s.threads[tid].imsi in ActiveSet(s))
    ensures ActiveSet(ThreadStep(cfg, s, tid, input)) == ActiveSet(s)
  {
    var store' := StoreAfter(s.store, s.threads[tid]);
    assert Active(store', s.clock) == Active(s.store, s.clock);
  }

  lemma StopStepLightens(cfg: Config, s: State, tid: nat, input: Input)
    requires cfg.rate >= 1 && tid < |s.threads| && UdpRank(s.threads[tid]) == 0
    requires CanStep(cfg, s, s.threads[tid], input)
    ensures Measure(ThreadStep(cfg, s, tid, input)) < Measure(s)
  {
    var t, s' := s.threads[tid], ThreadStep(cfg, s, tid, input);
    if t.OffDelete? && t.imsi in ActiveSet(s) {
      RemovalLightens(cfg, s, tid, input);
    } else {
      StopRankDrops(cfg, s, t, input);
      UdpSumUpdate(s.threads, tid, s'.threads[tid]);
      StopSumUpdate(s.threads, tid, s'.threads[tid], ActiveSet(s));
      OtherStopStepKeepsActive(cfg, s, tid, input);
      SameLoad(s, s');
    }
  }

  lemma OthersDoNotWeighDown(cfg: Config, s: State, e: Event)
    requires CleanerOk(s) && CanHappen(cfg, s, e) && !e.Step?
    ensures Measure(Next(cfg, s, e)) <= Measure(s)
  {
    var s' := Next(cfg, s, e);
    assert ActiveSet(s') <= ActiveSet(s);
    if ActiveSet(s') == ActiveSet(s) {
      SameLoad(s, s');
    } else {
      SmallerSubset(ActiveSet(s'), ActiveSet(s));
      LessLoad(s, s');
    }
  }

  function ThreadSteps(es: seq<Event>): nat {
    if es == [] then 0 else ThreadSteps(es[..|es| - 1]) + (if es[|es| - 1].Step? then 1 else 0)
  }

  /** Once running_ is false, and with a rate of at least one, the workers and stop handlers together take no
      more than Measure(s) steps, whatever the cleaner and the clock do meanwhile. */
  lemma {:induction false} ShutdownTerminates(cfg: Config, s: State, es: seq<Event>)
    requires cfg.rate >= 1 && !s.running && Mutex(s) && CleanerOk(s) && CanRun(cfg, s, es)
    ensures ThreadSteps(es) + Measure(Reach(cfg, s, es)) <= Measure(s)
  {
    if es != [] {
      var init, e := es[..|es| - 1], es[|es| - 1];
      ShutdownTerminates(cfg, s, init);
      RunKeepsMutex(cfg, s, init);
      AtMostOneMorePacket(cfg, s, init, 0);
      var t := Reach(cfg, s, init);
      if !e.Step? {
        OthersDoNotWeighDown(cfg, t, e);
      } else if UdpRank(t.threads[e.tid]) > 0 {
        UdpStepLightens(cfg, t, e.tid, e.input);
      } else {
        StopStepLightens(cfg, t, e.tid, e.input);
      }
    }
  }

  lemma ThreadStepsSnoc(es: seq<Event>, e: Event)
    ensures ThreadSteps(es + [e]) == ThreadSteps(es) + if e.Step? then 1 else 0
  {
    assert (es + [e])[..|es|] == es;
  }

  /** With a rate of 0, a stop handler that finds an active session only looks again. */
  lemma {:induction false} RateZeroSpins(cfg: Config, s: State, tid: nat, n: nat)
    requires cfg.rate == 0 && tid < |s.threads| && s.threads[tid] == StopCheck && s.lock == [] && !NoneActive(s)
    ensures Leads(cfg, s, Moves(tid, n), s) && ThreadSteps(Moves(tid, n)) == n
  {
    if n > 0 {
      RateZeroSpins(cfg, s, tid, n - 1);
      QuietStep(cfg, s, tid, Nothing, StopCheck);
      assert s.threads[tid := StopCheck] == s.threads;
      RunOne(cfg, s, Move(tid));
      LeadsChain(cfg, s, Moves(tid, n - 1), s, [Move(tid)], s);
      ThreadStepsSnoc(Moves(tid, n - 1), Move(tid));
      assert Moves(tid, n) == Moves(tid, n - 1) + [Move(tid)];
    }
  }

  /** So, as long as a session is active that a stop handler is looking at, the steps to the end of the shutdown are
      bounded exactly when the rate is not 0. */
  lemma BoundedExactly(cfg: Config, s: State, tid: nat)
    requires !s.running && Mutex(s) && CleanerOk(s)
    requires tid < |s.threads| && s.threads[tid] == StopCheck && s.lock == [] && !NoneActive(s)
    ensures (exists bound: nat :: StepsBounded(cfg, s, bound)) <==> cfg.rate >= 1
  {
    if cfg.rate >= 1 {
      forall es | CanRun(cfg, s, es)
        ensures ThreadSteps(es) <= Measure(s)
      {
        ShutdownTerminates(cfg, s, es);
      }
      assert StepsBounded(cfg, s, Measure(s));
    } else {
      forall bound: nat
        ensures !StepsBounded(cfg, s, bound)
      {
        RateZeroSpins(cfg, s, tid, bound + 1);
      }
    }
  }

  ghost predicate StepsBounded(cfg: Config, s: State, bound: nat) {
    forall es | CanRun(cfg, s, es) :: ThreadSteps(es) <= bound
  }

  /** And they never get stuck: as long as some thread has neither left nor sits in recvfrom, some such thread
      can take a step, and the owner of the mutex always can. */
  lemma NeverStuck(cfg: Config, s: State, j: nat) returns (tid: nat, input: Input)
    requires Mutex(s) && j < |s.threads|
    requires s.threads[j] != UdpDone && s.threads[j] != StopDone && s.threads[j] != UdpReceive
    ensures CanHappen(cfg, s, Step(tid, input)) && s.threads[tid] != UdpReceive
    ensures s.lock == [] ==> tid == j
  {
    if s.lock == [] {
      tid := j;
      if NoneActive(s) {
        input := Nothing;
      } else {
        var k :| k in s.store && s.clock < s.store[k].expires;
        input := Pick(k);
      }
    } else {
      tid := s.lock[0];
      assert tid in s.lock && s.lock == [tid];
      input := Nothing;
    }
  }

  predicate Gone(t: Thread) {
    t == UdpDone || t == StopDone
  }

  /** So from any such moment a stop handler, or a worker that has its packet, gets to its end. */
  lemma CanFinish(cfg: Config, s: State, j: nat) returns (es: seq<Event>)
    requires cfg.rate >= 1 && !s.running && Mutex(s) && CleanerOk(s) && j < |s.threads| && s.threads[j] != UdpReceive
    ensures CanRun(cfg, s, es) && |es| <= Measure(s)
    ensures j < |Reach(cfg, s, es).threads| && Gone(Reach(cfg, s, es).threads[j])
    decreases Measure(s)
  {
    if Gone(s.threads[j]) {
      return [];
    }
    var tid, input := NeverStuck(cfg, s, j);
    var e := Step(tid, input);
    var t := Next(cfg, s, e);
    if UdpRank(s.threads[tid]) > 0 {
      UdpStepLightens(cfg, s, tid, input);
    } else {
      StopStepLightens(cfg, s, tid, input);
    }
    NextKeepsMutex(cfg, s, e);
    StoppedStep(cfg, s, e, j);
    var rest := CanFinish(cfg, t, j);
    RunOne(cfg, s, e);
    RunConcat(cfg, s, [e], rest);
    es := [e] + rest;
  }

  // What the end of graceful_stop means.

  /** A stop handler leaves only at a moment when no session is active. */
  lemma StopSeesNoneActive(cfg: Config, s: State, e: Event, tid: nat)
    requires CanHappen(cfg, s, e) && tid < |s.threads|
    requires s.threads[tid] != StopDone && Next(cfg, s, e).threads[tid] == StopDone
    ensures NoneActive(Next(cfg, s, e)) && Next(cfg, s, e).lock == [] && Next(cfg, s, e).store == s.store
  {
  }

  /** The worker may still save a session that is active. */
  ghost predicate Hopeful(cfg: Config, now: nat, t: Thread) {
    match t
    case UdpReceive => cfg.timeout >= 1 && Admits(cfg)
    case TouchNow(_) => cfg.timeout >= 1
    case TouchExpires(_, _) => cfg.timeout >= 1
    case TouchLock(_, _, expires) => now < expires
    case TouchExists(_, _, expires) => now < expires
    case TouchSave(_, _, expires, _) => now < expires
    case _ => false
  }

  ghost predicate Quiet(cfg: Config, s: State) {
    !s.running && NoneActive(s) && forall i | 0 <= i < |s.threads| :: !Hopeful(cfg, s.clock, s.threads[i])
  }

  lemma QuietThread(cfg: Config, s: State, t: Thread, input: Input)
    requires !s.running && CanStep(cfg, s, t, input) && !Hopeful(cfg, s.clock, t)
    ensures !Hopeful(cfg, s.clock, ThreadAfter(cfg, s, t, input))
  {
  }

  lemma QuietStore(s: State, t: Thread)
    requires NoneActive(s) && (t.TouchSave? ==> t.expires <= s.clock)
    ensures forall k | k in StoreAfter(s.store, t) :: StoreAfter(s.store, t)[k].expires <= s.clock
  {
  }

  lemma NextStaysQuiet(cfg: Config, s: State, e: Event)
    requires Quiet(cfg, s) && CanHappen(cfg, s, e)
    ensures Quiet(cfg, Next(cfg, s, e))
  {
    match e
    case Pass(_) =>
    case Sweep(order) => SweepOnlyRemoves(cfg, s, order);
    case Step(tid, input) =>
      QuietThread(cfg, s, s.threads[tid], input);
      QuietStore(s, s.threads[tid]);
  }

  lemma {:induction false} QuietForever(cfg: Config, s: State, es: seq<Event>)
    requires Quiet(cfg, s) && CanRun(cfg, s, es)
    ensures Quiet(cfg, Reach(cfg, s, es))
  {
    if es != [] {
      QuietForever(cfg, s, es[..|es| - 1]);
      NextStaysQuiet(cfg, Reach(cfg, s, es[..|es| - 1]), es[|es| - 1]);
    }
  }

  /** A touch at the free mutex saves its session in three steps, whether it refreshes or creates. */
  lemma TouchSaves(cfg: Config, s: State, tid: nat)
    requires tid < |s.threads| && s.threads[tid].TouchLock? && s.lock == []
    ensures var t := s.threads[tid];
            && CanRun(cfg, s, Moves(tid, 3)) && Reach(cfg, s, Moves(tid, 3)).clock == s.clock
            && Reach(cfg, s, Moves(tid, 3)).store == s.store[t.imsi := Session(t.now, t.expires)]
  {
    var t := s.threads[tid];
    var u := s.(threads := s.threads[tid := TouchSave(t.imsi, t.now, t.expires, t.imsi in s.store)], lock := [tid]);
    TouchLooks(cfg, s, tid);
    assert Moves(tid, 1) == [Move(tid)];
    RunOne(cfg, u, Move(tid));
    RunConcat(cfg, s, Moves(tid, 2), Moves(tid, 1));
    MovesConcat(tid, 2, 1);
  }

  lemma LockedTouchSurvives(cfg: Config, s: State, tid: nat) returns (es: seq<Event>)
    requires tid < |s.threads| && s.threads[tid].TouchLock? && s.lock == [] && s.clock < s.threads[tid].expires
    ensures CanRun(cfg, s, es) && !NoneActive(Reach(cfg, s, es))
  {
    TouchSaves(cfg, s, tid);
    es := Moves(tid, 3);
    assert s.threads[tid].imsi in Reach(cfg, s, es).store;
  }

  /** A worker with a touch in hand can go on to leave an active session behind. */
  lemma HopefulTouchSurvives(cfg: Config, s: State, tid: nat) returns (es: seq<Event>)
    requires tid < |s.threads| && !Holds(s.threads[tid]) && s.lock == [] && Hopeful(cfg, s.clock, s.threads[tid])
    ensures CanRun(cfg, s, es) && !NoneActive(Reach(cfg, s, es))
    decreases UdpRank(s.threads[tid])
  {
    if s.threads[tid].TouchLock? {
      es := LockedTouchSurvives(cfg, s, tid);
    } else {
      var input := Nothing;
      if s.threads[tid] == UdpReceive {
        var b: seq<Byte> :| b != [] && Decode(Received(b)) !in cfg.blocked;
        input := Datagram(b);
      }
      var t' := ThreadAfter(cfg, s, s.threads[tid], input);
      var s' := s.(threads := s.threads[tid := t']);
      QuietStep(cfg, s, tid, input, t');
      var rest := HopefulTouchSurvives(cfg, s', tid);
      RunOne(cfg, s, Step(tid, input));
      RunConcat(cfg, s, [Step(tid, input)], rest);
      es := [Step(tid, input)] + rest;
    }
  }

  /** When the last check of graceful_stop finds no active session, the shutdown leaves none behind for good
      exactly when no worker then has a touch in hand that could still be saved before its expiry. */
  lemma StopIsFinalExactly(cfg: Config, s: State)
    requires Mutex(s) && !s.running && NoneActive(s) && s.lock == []
    ensures (forall es | CanRun(cfg, s, es) :: NoneActive(Reach(cfg, s, es))) <==>
            (forall i | 0 <= i < |s.threads| :: !Hopeful(cfg, s.clock, s.threads[i]))
  {
    if forall i | 0 <= i < |s.threads| :: !Hopeful(cfg, s.clock, s.threads[i]) {
      forall es | CanRun(cfg, s, es)
        ensures NoneActive(Reach(cfg, s, es))
      {
        QuietForever(cfg, s, es);
      }
    } else {
      var tid :| 0 <= tid < |s.threads| && Hopeful(cfg, s.clock, s.threads[tid]);
      var es := HopefulTouchSurvives(cfg, s, tid);
    }
  }
}
