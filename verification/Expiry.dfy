/** Time stamps over every interleaving: each thread reads its two clocks before it takes the mutex. */
module Expiry {
  import opened Bcd
  import opened SessionStores
  import opened SessionTimes
  import opened Interleaved
  import opened Races
  import opened Levels
  import opened ManagerSpec
  import opened TextTime
  import Calendar

  // Every session carries the stamps of one touch.

  /** The stamps of a touch that read its first clock not before `start` and its second not after `now`. */
  predicate IsStamp(timeout: nat, start: nat, now: nat, created: nat, expires: nat) {
    start <= created && created + timeout <= expires <= now + timeout
  }

  predicate ThreadStamped(timeout: nat, start: nat, now: nat, t: Thread) {
    match t
    case TouchExpires(_, created) => start <= created <= now
    case TouchLock(_, created, expires) => IsStamp(timeout, start, now, created, expires)
    case TouchExists(_, created, expires) => IsStamp(timeout, start, now, created, expires)
    case TouchSave(_, created, expires, _) => IsStamp(timeout, start, now, created, expires)
    case _ => true
  }

  /** Since `s`, every session in `t` is as it was or carries the stamps of one touch; so do the touches in hand. */
  predicate Stamped(cfg: Config, s: State, t: State) {
    && s.clock <= t.clock
    && (forall i | 0 <= i < |t.threads| :: ThreadStamped(cfg.timeout, s.clock, t.clock, t.threads[i]))
    && (forall k | k in t.store ::
          (k in s.store && t.store[k] == s.store[k])
          || IsStamp(cfg.timeout, s.clock, t.clock, t.store[k].created, t.store[k].expires))
  }

  lemma ThreadStaysStamped(cfg: Config, start: nat, s: State, t: Thread, input: Input)
    requires start <= s.clock && ThreadStamped(cfg.timeout, start, s.clock, t)
    ensures ThreadStamped(cfg.timeout, start, s.clock, ThreadAfter(cfg, s, t, input))
  {
  }

  lemma NextStaysStamped(cfg: Config, s: State, t: State, e: Event)
    requires Stamped(cfg, s, t) && CanHappen(cfg, t, e)
    ensures Stamped(cfg, s, Next(cfg, t, e))
  {
    match e
    case Pass(_) =>
    case Sweep(order) => SweepOnlyRemoves(cfg, t, order);
    case Step(tid, input) => ThreadStaysStamped(cfg, s.clock, t, t.threads[tid], input);
  }

  /** In every run, with any number of workers, a session saved since the start has a creation time since the start
      and an expiry at least a timeout after it and at most a timeout after now. */
  lemma {:induction false} SessionsAreStamped(cfg: Config, s: State, es: seq<Event>)
    requires IsStart(s) && CanRun(cfg, s, es)
    ensures Stamped(cfg, s, Reach(cfg, s, es))
  {
    if es != [] {
      SessionsAreStamped(cfg, s, es[..|es| - 1]);
      NextStaysStamped(cfg, s, Reach(cfg, s, es[..|es| - 1]), es[|es| - 1]);
    }
  }

  /** So in every run, while its times stay below the year 10000, the store's comparisons of printed stamps come out as
      the comparisons of times made here: for is_active and offloading at the present time, and for the cleaner at any
      earlier one. */
  lemma ComparesByText(text: TimeText, cfg: Config, s: State, es: seq<Event>, now: nat)
    requires KeepsOrder(text) && IsStart(s) && CanRun(cfg, s, es) && InRange(s.store, s.clock)
    requires now <= Reach(cfg, s, es).clock && Reach(cfg, s, es).clock + cfg.timeout <= Calendar.MAX_INSTANT
    ensures var t := Reach(cfg, s, es);
            var rows := PrintStore(text, t.store);
            && ActiveRows(rows, text(t.clock)) == PrintStore(text, Active(t.store, t.clock))
            && ExpiredRows(cfg.kind, rows, text(now)) == PrintStore(text, ExpiredPart(cfg.kind, t.store, now))
            && UnexpiredRows(cfg.kind, rows, text(now)) == PrintStore(text, Unexpired(cfg.kind, t.store, now))
  {
    var t := Reach(cfg, s, es);
    assert InRange(t.store, t.clock) by {
      SessionsAreStamped(cfg, s, es);
    }
    ActiveRowsByText(text, t.store, t.clock);
    ExpiredRowsByText(text, cfg.kind, t.store, now);
    UnexpiredRowsByText(text, cfg.kind, t.store, now);
  }

  // Does the expiry of a session ever move back while it stays stored?

  /** Some packet is let in that touches `imsi`. */
  ghost predicate Touchable(cfg: Config, imsi: string) {
    imsi !in cfg.blocked && exists b: seq<Byte> :: b != [] && Decode(Received(b)) == imsi
  }

  /** A thread that is or was a UDP worker. */
  predicate IsWorker(t: Thread) {
    t == UdpLoop || t == UdpReceive || t == UdpDone || InTouch(t)
  }

  predicate OneWorker(s: State) {
    forall i, j | 0 <= i < j < |s.threads| :: !(IsWorker(s.threads[i]) && IsWorker(s.threads[j]))
  }

  /** The thread has taken the expiry that it is going to save. */
  predicate HasExpiry(t: Thread) {
    t.TouchLock? || t.TouchExists? || t.TouchSave?
  }

  /** The thread carries an IMSI on the way to its save. */
  predicate Carries(t: Thread) {
    t.TouchNow? || t.TouchExpires? || HasExpiry(t)
  }

  /** What threads carry can be touched, and what they have in hand expires by `bound`. */
  ghost predicate InHand(cfg: Config, threads: seq<Thread>, bound: nat) {
    && (forall i | 0 <= i < |threads| && Carries(threads[i]) :: Touchable(cfg, threads[i].imsi))
    && (forall i | 0 <= i < |threads| && HasExpiry(threads[i]) :: threads[i].expires <= bound)
  }

  /** No stored session that can be touched expires after `bound`. */
  ghost predicate StoredBy(cfg: Config, store: Sessions, bound: nat) {
    forall k | k in store && Touchable(cfg, k) :: store[k].expires <= bound
  }

  /** No stored session that can be touched expires later than one touched now would, or than what a thread has in
      hand. */
  ghost predicate NoneAhead(cfg: Config, s: State) {
    && InHand(cfg, s.threads, s.clock + cfg.timeout) && StoredBy(cfg, s.store, s.clock + cfg.timeout)
    && forall i | 0 <= i < |s.threads| && HasExpiry(s.threads[i]) :: StoredBy(cfg, s.store, s.threads[i].expires)
  }

  predicate MovesBack(s: State, t: State, imsi: string) {
    imsi in s.store && imsi in t.store && t.store[imsi].expires < s.store[imsi].expires
  }

  lemma StepKeepsWorkers(cfg: Config, s: State, tid: nat, input: Input)
    requires tid < |s.threads| && CanStep(cfg, s, s.threads[tid], input)
    ensures IsWorker(ThreadAfter(cfg, s, s.threads[tid], input)) == IsWorker(s.threads[tid])
  {
  }

  /** What one thread carries after its step. */
  lemma ThreadStaysInHand(cfg: Config, s: State, t: Thread, input: Input)
    requires Carries(t) ==> Touchable(cfg, t.imsi)
    requires HasExpiry(t) ==> t.expires <= s.clock + cfg.timeout
    ensures var t' := ThreadAfter(cfg, s, t, input);
            && (Carries(t') ==> Touchable(cfg, t'.imsi))
            && (HasExpiry(t') ==> t'.expires == if HasExpiry(t) then t.expires else s.clock + cfg.timeout)
  {
  }

  /** What a step leaves in the store was there before, or is what the thread had in hand. */
  lemma SaveIsInHand(store: Sessions, t: Thread, k: string)
    requires k in StoreAfter(store, t)
    ensures (k in store && StoreAfter(store, t)[k] == store[k])
            || (t.TouchSave? && t.imsi == k && StoreAfter(store, t)[k].expires == t.expires)
  {
  }

  lemma StoredByAfter(cfg: Config, store: Sessions, t: Thread, bound: nat)
    requires StoredBy(cfg, store, bound) && (t.TouchSave? ==> t.expires <= bound)
    ensures StoredBy(cfg, StoreAfter(store, t), bound)
  {
    forall k | k in StoreAfter(store, t) && Touchable(cfg, k)
      ensures StoreAfter(store, t)[k].expires <= bound
    {
      SaveIsInHand(store, t, k);
    }
  }

  lemma StepKeepsNoneAhead(cfg: Config, s: State, tid: nat, input: Input)
    requires OneWorker(s) && NoneAhead(cfg, s) && CanHappen(cfg, s, Step(tid, input))
    ensures NoneAhead(cfg, ThreadStep(cfg, s, tid, input))
  {
    var t, s' := s.threads[tid], ThreadStep(cfg, s, tid, input);
    ThreadStaysInHand(cfg, s, t, input);
    StoredByAfter(cfg, s.store, t, s.clock + cfg.timeout);
    forall i | 0 <= i < |s'.threads| && HasExpiry(s'.threads[i])
      ensures StoredBy(cfg, s'.store, s'.threads[i].expires)
    {
      if t.TouchSave? {
        assert i != tid && IsWorker(s.threads[i]) && IsWorker(t);
      }
      if i == tid && !HasExpiry(t) {
        assert s'.store == s.store;
      } else {
        assert s'.threads[i].expires == s.threads[i].expires && HasExpiry(s.threads[i]);
        StoredByAfter(cfg, s.store, t, s'.threads[i].expires);
      }
    }
  }

  lemma NextMovesNoneBack(cfg: Config, s: State, e: Event, k: string)
    requires NoneAhead(cfg, s) && CanHappen(cfg, s, e)
    ensures !MovesBack(s, Next(cfg, s, e), k)
  {
    match e
    case Pass(_) =>
    case Sweep(order) => SweepOnlyRemoves(cfg, s, order);
    case Step(tid, _) =>
      if k in StoreAfter(s.store, s.threads[tid]) {
        SaveIsInHand(s.store, s.threads[tid], k);
      }
  }

  lemma StoredByFewer(cfg: Config, store: Sessions, fewer: Sessions, bound: nat)
    requires StoredBy(cfg, store, bound) && forall k | k in fewer :: k in store && fewer[k] == store[k]
    ensures StoredBy(cfg, fewer, bound)
  {
  }

  lemma SweepKeepsNoneAhead(cfg: Config, s: State, order: seq<string>)
    requires NoneAhead(cfg, s)
    ensures NoneAhead(cfg, SweepStep(cfg, s, order))
  {
    var s' := SweepStep(cfg, s, order);
    SweepOnlyRemoves(cfg, s, order);
    StoredByFewer(cfg, s.store, s'.store, s.clock + cfg.timeout);
    forall i | 0 <= i < |s'.threads| && HasExpiry(s'.threads[i])
      ensures StoredBy(cfg, s'.store, s'.threads[i].expires)
    {
      StoredByFewer(cfg, s.store, s'.store, s.threads[i].expires);
    }
  }

  lemma NextKeepsNoneAhead(cfg: Config, s: State, e: Event)
    requires OneWorker(s) && NoneAhead(cfg, s) && CanHappen(cfg, s, e)
    ensures OneWorker(Next(cfg, s, e)) && NoneAhead(cfg, Next(cfg, s, e))
  {
    match e
    case Pass(_) =>
    case Sweep(order) =>
      SweepOnlyRemoves(cfg, s, order);
      SweepKeepsNoneAhead(cfg, s, order);
    case Step(tid, input) =>
      StepKeepsNoneAhead(cfg, s, tid, input);
      StepKeepsWorkers(cfg, s, tid, input);
  }

  lemma {:induction false} RunKeepsNoneAhead(cfg: Config, s: State, es: seq<Event>)
    requires OneWorker(s) && NoneAhead(cfg, s) && CanRun(cfg, s, es)
    ensures OneWorker(Reach(cfg, s, es)) && NoneAhead(cfg, Reach(cfg, s, es))
  {
    if es != [] {
      RunKeepsNoneAhead(cfg, s, es[..|es| - 1]);
      NextKeepsNoneAhead(cfg, Reach(cfg, s, es[..|es| - 1]), es[|es| - 1]);
    }
  }

  /** After the run `es`, the step `e` moves the expiry of a session back that stays stored. */
  predicate StepMovesBack(cfg: Config, s: State, es: seq<Event>, e: Event, imsi: string) {
    && CanRun(cfg, s, es) && CanHappen(cfg, Reach(cfg, s, es), e)
    && MovesBack(Reach(cfg, s, es), Next(cfg, Reach(cfg, s, es), e), imsi)
  }

  /** In no run does any step do that. */
  ghost predicate NeverMovesBack(cfg: Config, s: State) {
    forall es, e, k :: !StepMovesBack(cfg, s, es, e, k)
  }

  lemma SaveMovesBack(cfg: Config, s: State, tid: nat)
    requires tid < |s.threads| && s.threads[tid].TouchSave? && s.threads[tid].imsi in s.store
    requires s.threads[tid].expires < s.store[s.threads[tid].imsi].expires
    ensures CanHappen(cfg, s, Move(tid)) && MovesBack(s, Next(cfg, s, Move(tid)), s.threads[tid].imsi)
  {
  }

  /** A touch that takes the mutex with an earlier expiry in hand than the one stored saves it all the same. */
  lemma LateSaveMovesBack(cfg: Config, s: State, es: seq<Event>, tid: nat)
    requires CanRun(cfg, s, es)
    requires var t := Reach(cfg, s, es);
             && tid < |t.threads| && t.threads[tid].TouchLock? && t.lock == []
             && t.threads[tid].imsi in t.store && t.threads[tid].expires < t.store[t.threads[tid].imsi].expires
    ensures !NeverMovesBack(cfg, s)
  {
    var t := Reach(cfg, s, es);
    TouchLooks(cfg, t, tid);
    RunConcat(cfg, s, es, Moves(tid, 2));
    SaveMovesBack(cfg, Reach(cfg, s, es + Moves(tid, 2)), tid);
    assert StepMovesBack(cfg, s, es + Moves(tid, 2), Move(tid), t.threads[tid].imsi);
  }

  /** With a session restored that expires further ahead than a timeout, its first touch does it. */
  lemma FarSessionMovesBack(cfg: Config, s: State, tid: nat, bytes: seq<Byte>)
    requires IsStart(s) && tid < |s.threads| && s.threads[tid] == UdpLoop
    requires bytes != [] && Decode(Received(bytes)) !in cfg.blocked && Decode(Received(bytes)) in s.store
    requires s.store[Decode(Received(bytes))].expires > s.clock + cfg.timeout
    ensures !NeverMovesBack(cfg, s)
  {
    var es := LoopToLock(cfg, s, tid, bytes);
    LateSaveMovesBack(cfg, s, es, tid);
  }

  /** A worker takes its times, and a second later another one touches the same IMSI. */
  lemma Overtaken(cfg: Config, s: State, a: nat, b: nat, bytes: seq<Byte>) returns (es: seq<Event>)
    requires a < |s.threads| && b < |s.threads| && a != b && s.running && s.lock == []
    requires s.threads[a] == UdpLoop && s.threads[b] == UdpLoop
    requires bytes != [] && Decode(Received(bytes)) !in cfg.blocked
    ensures CanRun(cfg, s, es)
    ensures var imsi, t := Decode(Received(bytes)), Reach(cfg, s, es);
            && |t.threads| == |s.threads| && t.threads[a] == TouchLock(imsi, s.clock, s.clock + cfg.timeout)
            && t.lock == [] && imsi in t.store && t.store[imsi].expires == s.clock + 1 + cfg.timeout
  {
    var t' := TouchLock(Decode(Received(bytes)), s.clock, s.clock + cfg.timeout);
    var t := s.(threads := s.threads[a := t']);
    var u := t.(clock := s.clock + 1);
    var early := LoopToLock(cfg, s, a, bytes);
    Passes(cfg, t, 1);
    LeadsChain(cfg, s, early, t, [Pass(1)], u);
    var late := TouchIsAtomic(cfg, u, b, bytes);
    RunConcat(cfg, s, early + [Pass(1)], late);
    es := early + [Pass(1)] + late;
  }

  /** With two workers, the one that takes its times first may save last. */
  lemma TwoWorkersMoveBack(cfg: Config, s: State, a: nat, b: nat, bytes: seq<Byte>)
    requires IsStart(s) && a < |s.threads| && b < |s.threads| && a != b
    requires s.threads[a] == UdpLoop && s.threads[b] == UdpLoop
    requires bytes != [] && Decode(Received(bytes)) !in cfg.blocked
    ensures !NeverMovesBack(cfg, s)
  {
    var es := Overtaken(cfg, s, a, b, bytes);
    LateSaveMovesBack(cfg, s, es, a);
  }

  lemma UntouchedNeverMoveBack(cfg: Config, s: State)
    requires IsStart(s) && !CanTouch(cfg, s)
    ensures NeverMovesBack(cfg, s)
  {
    StartTouchesNothing(cfg, s);
    forall es, e, k
      ensures !StepMovesBack(cfg, s, es, e, k)
    {
      if CanRun(cfg, s, es) && CanHappen(cfg, Reach(cfg, s, es), e) {
        RunKeepsNoTouch(cfg, s, es);
        NextKeepsNoTouch(cfg, Reach(cfg, s, es), e);
      }
    }
  }

  lemma OneWorkerNeverMovesBack(cfg: Config, s: State)
    requires OneWorker(s) && NoneAhead(cfg, s)
    ensures NeverMovesBack(cfg, s)
  {
    forall es, e, k
      ensures !StepMovesBack(cfg, s, es, e, k)
    {
      if CanRun(cfg, s, es) && CanHappen(cfg, Reach(cfg, s, es), e) {
        RunKeepsNoneAhead(cfg, s, es);
        NextMovesNoneBack(cfg, Reach(cfg, s, es), e, k);
      }
    }
  }

  lemma TouchesMoveBack(cfg: Config, s: State)
    requires IsStart(s) && CanTouch(cfg, s)
    requires !OneWorker(s) || !StoredBy(cfg, s.store, s.clock + cfg.timeout)
    ensures !NeverMovesBack(cfg, s)
  {
    if !OneWorker(s) {
      var b: seq<Byte> :| b != [] && Decode(Received(b)) !in cfg.blocked;
      var i, j :| 0 <= i < j < |s.threads| && IsWorker(s.threads[i]) && IsWorker(s.threads[j]);
      TwoWorkersMoveBack(cfg, s, i, j, b);
    } else {
      var i :| 0 <= i < |s.threads| && s.threads[i] == UdpLoop;
      var k :| k in s.store && Touchable(cfg, k) && s.store[k].expires > s.clock + cfg.timeout;
      var b: seq<Byte> :| b != [] && Decode(Received(b)) == k;
      FarSessionMovesBack(cfg, s, i, b);
    }
  }

  /** No expiry ever moves back exactly when no touch can come, or there is one worker only and no session was restored
      that can be touched and expires further ahead than a timeout. */
  lemma NeverMovesBackExactly(cfg: Config, s: State)
    requires IsStart(s)
    ensures NeverMovesBack(cfg, s) <==>
            !CanTouch(cfg, s) || (OneWorker(s) && StoredBy(cfg, s.store, s.clock + cfg.timeout))
  {
    if !CanTouch(cfg, s) {
      UntouchedNeverMoveBack(cfg, s);
    } else if OneWorker(s) && StoredBy(cfg, s.store, s.clock + cfg.timeout) {
      OneWorkerNeverMovesBack(cfg, s);
    } else {
      TouchesMoveBack(cfg, s);
    }
  }

  /** The session is stored after `es`, and after every event of `fs` from there on. */
  predicate StaysStored(cfg: Config, s: State, es: seq<Event>, fs: seq<Event>, k: string) {
    k in Reach(cfg, s, es + fs).store && (fs == [] || StaysStored(cfg, s, es, fs[..|fs| - 1], k))
  }

  /** So over any part of a run in which a session stays stored its expiry does not move back. */
  lemma {:induction false} ExpiryNeverDecreases(cfg: Config, s: State, es: seq<Event>, fs: seq<Event>, k: string)
    requires NeverMovesBack(cfg, s) && CanRun(cfg, s, es + fs) && StaysStored(cfg, s, es, fs, k)
    ensures var t, t' := Reach(cfg, s, es), Reach(cfg, s, es + fs);
            k in t.store && k in t'.store && t.store[k].expires <= t'.store[k].expires
  {
    if fs == [] {
      assert es + fs == es;
    } else {
      var init, e := fs[..|fs| - 1], fs[|fs| - 1];
      var u := Reach(cfg, s, es + init);
      assert CanRun(cfg, s, es + init) && CanHappen(cfg, u, e) && Reach(cfg, s, es + fs) == Next(cfg, u, e) by {
        assert (es + fs)[..|es + fs| - 1] == es + init && (es + fs)[|es + fs| - 1] == e;
      }
      ExpiryNeverDecreases(cfg, s, es, init, k);
      assert !StepMovesBack(cfg, s, es + init, e, k);
    }
  }
}
