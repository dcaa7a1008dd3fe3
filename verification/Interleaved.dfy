/** The server at the grain at which its threads really interleave: any number of UDP workers and stop
    handlers, one cleaner, and a clock. One step is what a thread does between two points where another
    thread can come in: taking or releasing the manager's mutex, one call on the store, one CDR write,
    one look at the clock. */
module Interleaved {
  import opened Bcd
  import opened SessionStores
  import opened SessionTimes

  datatype Config = Config(kind: StoreKind, timeout: nat, rate: nat, blocked: set<string>)

  /** Where a thread stands. From TouchExists to TouchUnlock, and from OffDelete to OffUnlock, it holds
      the manager's mutex. */
  datatype Thread =
    | UdpLoop                                                    // about to test running_
    | UdpReceive                                                 // waiting in recvfrom
    | TouchNow(imsi: string)                                     // about to call now_str
    | TouchExpires(imsi: string, now: nat)                       // about to call expires_str
    | TouchLock(imsi: string, now: nat, expires: nat)            // about to take the mutex
    | TouchExists(imsi: string, now: nat, expires: nat)          // about to call session_exists
    | TouchSave(imsi: string, now: nat, expires: nat, known: bool)   // about to call save_session
    | TouchRecord(imsi: string, now: nat)                        // about to write "created"
    | TouchUnlock                                                // about to return and reply
    | UdpDone
    | StopUdp                                                    // about to clear running_
    | StopCheck                                                  // about to load, in graceful_stop
    | OffPick(removed: nat)                                      // about to load, in offload_rate
    | OffLock(imsi: string, removed: nat)                        // chosen, mutex released
    | OffDelete(imsi: string, removed: nat)                      // about to call delete_session
    | OffRecord(imsi: string, removed: nat)                      // about to write "expired"
    | OffUnlock(removed: nat)
    | OffSleep(removed: nat)
    | StopDone

  /** The cleaner never holds the manager's mutex while it works. */
  datatype Cleaner =
    | CleanNow                                                   // about to call now_str
    | CleanLoad(now: nat)                                        // about to load the expired sessions
    | CleanRecord(now: nat, listed: seq<string>, next: nat)      // writing "expired" for each, then deleting

  /** The last four fields only keep account. `lost` counts the sessions that a cleanup deleted without
      having listed them; `surplus` the "expired" records whose writer then deleted nothing; `revived`
      the refreshes that found their session deleted in between; `stale` the saves whose expiry had
      already passed. */
  datatype State = State(store: Sessions, log: seq<Entry>, clock: nat, lock: seq<nat>, running: bool,
                         threads: seq<Thread>, cleaner: Cleaner,
                         lost: multiset<string>, surplus: multiset<string>,
                         revived: multiset<string>, stale: multiset<string>)

  datatype Input = Nothing | Datagram(bytes: seq<Byte>) | Pick(imsi: string)

  datatype Event =
    | Pass(seconds: nat)
    | Sweep(order: seq<string>)          // a step of the cleaner; `order` is what the store lists
    | Step(tid: nat, input: Input)       // a step of a thread

  predicate NoneActive(s: State) {
    forall k | k in s.store :: s.store[k].expires <= s.clock
  }

  /** A datagram of no bytes stands for any return of recvfrom that carries no data. */
  predicate CanStep(cfg: Config, s: State, t: Thread, input: Input) {
    match t
    case UdpReceive => input.Datagram?
    case TouchLock(_, _, _) => s.lock == []
    case StopCheck => s.lock == []
    case OffPick(_) => s.lock == [] && (NoneActive(s) || (input.Pick? && input.imsi in Active(s.store, s.clock)))
    case OffLock(_, _) => s.lock == []
    case UdpDone => false
    case StopDone => false
    case _ => true
  }

  predicate CanHappen(cfg: Config, s: State, e: Event) {
    match e
    case Pass(_) => true
    case Sweep(order) => s.cleaner.CleanLoad? ==> Enumerates(order, ExpiredPart(cfg.kind, s.store, s.cleaner.now).Keys)
    case Step(tid, input) => tid < |s.threads| && CanStep(cfg, s, s.threads[tid], input)
  }

  // What a step of a thread standing at `t` does: where the thread stands next, and its effect on the
  // mutex, the store, the log, the running_ flag and the accounts.

  function ThreadAfter(cfg: Config, s: State, t: Thread, input: Input): Thread {
    match t
    case UdpLoop => if s.running then UdpReceive else UdpDone
    case UdpReceive =>
      if !input.Datagram? || input.bytes == [] then UdpLoop
      else
        var imsi := Decode(Received(input.bytes));
        if imsi in cfg.blocked then UdpLoop else TouchNow(imsi)
    case TouchNow(imsi) => TouchExpires(imsi, s.clock)
    case TouchExpires(imsi, now) => TouchLock(imsi, now, s.clock + cfg.timeout)
    case TouchLock(imsi, now, expires) => TouchExists(imsi, now, expires)
    case TouchExists(imsi, now, expires) => TouchSave(imsi, now, expires, imsi in s.store)
    case TouchSave(imsi, now, expires, known) => if known then TouchUnlock else TouchRecord(imsi, now)
    case TouchRecord(_, _) => TouchUnlock
    case TouchUnlock => UdpLoop
    case UdpDone => UdpDone
    case StopUdp => StopCheck
    case StopCheck => if NoneActive(s) then StopDone else if cfg.rate == 0 then StopCheck else OffPick(0)
    case OffPick(removed) => if NoneActive(s) || !input.Pick? then StopCheck else OffLock(input.imsi, removed)
    case OffLock(imsi, removed) => OffDelete(imsi, removed)
    case OffDelete(imsi, removed) => OffRecord(imsi, removed)
    case OffRecord(_, removed) => OffUnlock(removed)
    case OffUnlock(removed) => OffSleep(removed)
    case OffSleep(removed) => if removed + 1 < cfg.rate then OffPick(removed + 1) else StopCheck
    case StopDone => StopDone
  }

  function LockAfter(lock: seq<nat>, tid: nat, t: Thread): seq<nat> {
    if t.TouchLock? || t.OffLock? then [tid] else if t.TouchUnlock? || t.OffUnlock? then [] else lock
  }

  function StoreAfter(store: Sessions, t: Thread): Sessions {
    match t
    case TouchSave(imsi, now, expires, _) => store[imsi := Session(now, expires)]
    case OffDelete(imsi, _) => store - {imsi}
    case _ => store
  }

  function LogAfter(log: seq<Entry>, clock: nat, t: Thread): seq<Entry> {
    match t
    case TouchRecord(imsi, now) => log + [Entry(now, imsi, Created)]
    case OffRecord(imsi, _) => log + [Entry(clock, imsi, Expired)]
    case _ => log
  }

  function Once(b: bool, imsi: string): multiset<string> {
    if b then multiset{imsi} else multiset{}
  }

  function NewlyStale(clock: nat, t: Thread): multiset<string> {
    if t.TouchSave? then Once(t.expires <= clock, t.imsi) else multiset{}
  }

  function NewlyRevived(store: Sessions, t: Thread): multiset<string> {
    if t.TouchSave? then Once(t.known && t.imsi !in store, t.imsi) else multiset{}
  }

  function NewSurplus(store: Sessions, t: Thread): multiset<string> {
    if t.OffDelete? then Once(t.imsi !in store, t.imsi) else multiset{}
  }

  function ThreadStep(cfg: Config, s: State, tid: nat, input: Input): State
    requires tid < |s.threads|
  {
    var t := s.threads[tid];
    s.(threads := s.threads[tid := ThreadAfter(cfg, s, t, input)],
       lock := LockAfter(s.lock, tid, t),
       store := StoreAfter(s.store, t),
       log := LogAfter(s.log, s.clock, t),
       running := s.running && !t.StopUdp?,
       stale := s.stale + NewlyStale(s.clock, t),
       revived := s.revived + NewlyRevived(s.store, t),
       surplus := s.surplus + NewSurplus(s.store, t))
  }

  function SetOf(listed: seq<string>): set<string> {
    set k | k in listed
  }

  function SweepStep(cfg: Config, s: State, order: seq<string>): State {
    match s.cleaner
    case CleanNow => s.(cleaner := CleanLoad(s.clock))
    case CleanLoad(now) => s.(cleaner := CleanRecord(now, order, 0))
    case CleanRecord(now, listed, next) =>
      if next < |listed| then
        s.(log := s.log + [Entry(now, listed[next], Expired)], cleaner := CleanRecord(now, listed, next + 1))
      else
        var gone := ExpiredPart(cfg.kind, s.store, now).Keys;
        s.(store := Unexpired(cfg.kind, s.store, now),
           lost := s.lost + multiset(gone - SetOf(listed)),
           surplus := s.surplus + multiset(SetOf(listed) - gone),
           cleaner := CleanNow)
  }

  function Next(cfg: Config, s: State, e: Event): State {
    match e
    case Pass(seconds) => s.(clock := s.clock + seconds)
    case Sweep(order) => SweepStep(cfg, s, order)
    case Step(tid, input) => if tid < |s.threads| then ThreadStep(cfg, s, tid, input) else s
  }

  function Reach(cfg: Config, s: State, es: seq<Event>): State {
    if es == [] then s else Next(cfg, Reach(cfg, s, es[..|es| - 1]), es[|es| - 1])
  }

  predicate CanRun(cfg: Config, s: State, es: seq<Event>) {
    es == [] || (CanRun(cfg, s, es[..|es| - 1]) && CanHappen(cfg, Reach(cfg, s, es[..|es| - 1]), es[|es| - 1]))
  }

  /** A server that starts with restored sessions; no thread has done anything yet. */
  predicate IsStart(s: State) {
    && s.log == [] && s.lock == [] && s.running && s.cleaner == CleanNow
    && (forall i | 0 <= i < |s.threads| :: s.threads[i] == UdpLoop || s.threads[i] == StopUdp)
    && s.lost == multiset{} && s.surplus == multiset{} && s.revived == multiset{} && s.stale == multiset{}
  }

  // The mutex.

  predicate Holds(t: Thread) {
    t.TouchExists? || t.TouchSave? || t.TouchRecord? || t.TouchUnlock? || t.OffDelete? || t.OffRecord? || t.OffUnlock?
  }

  /** The mutex has at most one owner, and exactly its owner is inside a locked block. */
  predicate OneOwner(threads: seq<Thread>, lock: seq<nat>) {
    && |lock| <= 1 && (forall t | t in lock :: t < |threads|)
    && (forall t | 0 <= t < |threads| :: Holds(threads[t]) <==> lock == [t])
  }

  /** While a creating touch is about to save, its IMSI is not stored. */
  predicate CreatesAreNew(threads: seq<Thread>, store: Sessions) {
    forall t | 0 <= t < |threads| && threads[t].TouchSave? && !threads[t].known :: threads[t].imsi !in store
  }

  predicate Mutex(s: State) {
    OneOwner(s.threads, s.lock) && CreatesAreNew(s.threads, s.store)
  }

  /** The three ways in which a step may deal with the mutex. */
  predicate LockUse(lock: seq<nat>, lock': seq<nat>, tid: nat, t: Thread, t': Thread) {
    || (lock' == lock && Holds(t') == Holds(t))
    || (lock == [] && lock' == [tid] && Holds(t'))
    || (Holds(t) && lock' == [] && !Holds(t'))
  }

  lemma LockUseKeepsOneOwner(threads: seq<Thread>, lock: seq<nat>, lock': seq<nat>, tid: nat, t': Thread)
    requires tid < |threads| && OneOwner(threads, lock) && LockUse(lock, lock', tid, threads[tid], t')
    ensures OneOwner(threads[tid := t'], lock')
  {
  }

  lemma StepUsesLock(cfg: Config, s: State, tid: nat, input: Input)
    requires tid < |s.threads| && OneOwner(s.threads, s.lock) && CanStep(cfg, s, s.threads[tid], input)
    ensures var t := s.threads[tid]; LockUse(s.lock, LockAfter(s.lock, tid, t), tid, t, ThreadAfter(cfg, s, t, input))
  {
  }

  /** Only the owner of the mutex adds to the store, and a creating touch has just looked. */
  lemma StepKeepsCreatesNew(cfg: Config, s: State, tid: nat, input: Input)
    requires tid < |s.threads| && Mutex(s) && CanStep(cfg, s, s.threads[tid], input)
    ensures var s' := ThreadStep(cfg, s, tid, input); CreatesAreNew(s'.threads, s'.store)
  {
    var s' := ThreadStep(cfg, s, tid, input);
    StepUsesLock(cfg, s, tid, input);
    forall t | 0 <= t < |s'.threads| && s'.threads[t].TouchSave? && !s'.threads[t].known
      ensures s'.threads[t].imsi !in s'.store
    {
      if t != tid {
        assert s'.threads[t] == s.threads[t] && Holds(s.threads[t]) && !Holds(s.threads[tid]);
      }
    }
  }

  /** The cleaner's times are past, and it lists each session once. */
  predicate CleanerOk(s: State) {
    match s.cleaner
    case CleanNow => true
    case CleanLoad(now) => now <= s.clock
    case CleanRecord(now, listed, next) =>
      now <= s.clock && next <= |listed| && forall i, j | 0 <= i < j < |listed| :: listed[i] != listed[j]
  }

  lemma ThreadStepKeepsMutex(cfg: Config, s: State, tid: nat, input: Input)
    requires tid < |s.threads| && Mutex(s) && CanStep(cfg, s, s.threads[tid], input)
    ensures Mutex(ThreadStep(cfg, s, tid, input))
  {
    var s' := ThreadStep(cfg, s, tid, input);
    StepUsesLock(cfg, s, tid, input);
    LockUseKeepsOneOwner(s.threads, s.lock, s'.lock, tid, s'.threads[tid]);
    StepKeepsCreatesNew(cfg, s, tid, input);
  }

  lemma SweepStepKeepsMutex(cfg: Config, s: State, order: seq<string>)
    requires Mutex(s) && CleanerOk(s) && CanHappen(cfg, s, Sweep(order))
    ensures Mutex(SweepStep(cfg, s, order)) && CleanerOk(SweepStep(cfg, s, order))
  {
  }

  lemma NextKeepsMutex(cfg: Config, s: State, e: Event)
    requires Mutex(s) && CleanerOk(s) && CanHappen(cfg, s, e)
    ensures Mutex(Next(cfg, s, e)) && CleanerOk(Next(cfg, s, e))
  {
    match e
    case Pass(_) =>
    case Sweep(order) => SweepStepKeepsMutex(cfg, s, order);
    case Step(tid, input) =>
      ThreadStepKeepsMutex(cfg, s, tid, input);
  }

  lemma StartIsMutex(s: State)
    requires IsStart(s)
    ensures Mutex(s) && CleanerOk(s)
  {
  }

  lemma {:induction false} RunKeepsMutex(cfg: Config, s: State, es: seq<Event>)
    requires Mutex(s) && CleanerOk(s) && CanRun(cfg, s, es)
    ensures Mutex(Reach(cfg, s, es)) && CleanerOk(Reach(cfg, s, es))
  {
    if es != [] {
      RunKeepsMutex(cfg, s, es[..|es| - 1]);
      NextKeepsMutex(cfg, Reach(cfg, s, es[..|es| - 1]), es[|es| - 1]);
    }
  }

  // Servers that touch nothing.

  /** Some packet would be let in. */
  ghost predicate Admits(cfg: Config) {
    exists b: seq<Byte> :: b != [] && Decode(Received(b)) !in cfg.blocked
  }

  /** At the start: there is a worker, and some packet would be let in. */
  ghost predicate CanTouch(cfg: Config, s: State) {
    Admits(cfg) && exists i | 0 <= i < |s.threads| :: s.threads[i] == UdpLoop
  }

  /** From the packet that was let in to the end of its touch. */
  predicate InTouch(t: Thread) {
    || t.TouchNow? || t.TouchExpires? || t.TouchLock? || t.TouchExists? || t.TouchSave?
    || t.TouchRecord? || t.TouchUnlock?
  }

  /** No touch is under way, and none will come. */
  ghost predicate NoTouch(cfg: Config, s: State) {
    forall i | 0 <= i < |s.threads| ::
      !InTouch(s.threads[i]) && (s.threads[i] == UdpLoop || s.threads[i] == UdpReceive ==> !Admits(cfg))
  }

  lemma ThreadStaysOut(cfg: Config, s: State, t: Thread, input: Input)
    requires CanStep(cfg, s, t, input) && !InTouch(t) && (t == UdpLoop || t == UdpReceive ==> !Admits(cfg))
    ensures var t' := ThreadAfter(cfg, s, t, input);
            !InTouch(t') && (t' == UdpLoop || t' == UdpReceive ==> !Admits(cfg))
  {
  }

  lemma SweepOnlyRemoves(cfg: Config, s: State, order: seq<string>)
    ensures var s' := SweepStep(cfg, s, order);
            s'.threads == s.threads && s'.running == s.running && s'.clock == s.clock && s'.lock == s.lock
    ensures forall k | k in SweepStep(cfg, s, order).store ::
              k in s.store && SweepStep(cfg, s, order).store[k] == s.store[k]
  {
  }

  lemma NextKeepsNoTouch(cfg: Config, s: State, e: Event)
    requires NoTouch(cfg, s) && CanHappen(cfg, s, e)
    ensures NoTouch(cfg, Next(cfg, s, e)) && Next(cfg, s, e).stale == s.stale
    ensures forall k | k in Next(cfg, s, e).store :: k in s.store && Next(cfg, s, e).store[k] == s.store[k]
  {
    match e
    case Pass(_) =>
    case Sweep(order) => SweepOnlyRemoves(cfg, s, order);
    case Step(tid, input) => ThreadStaysOut(cfg, s, s.threads[tid], input);
  }

  lemma {:induction false} RunKeepsNoTouch(cfg: Config, s: State, es: seq<Event>)
    requires NoTouch(cfg, s) && CanRun(cfg, s, es)
    ensures NoTouch(cfg, Reach(cfg, s, es)) && Reach(cfg, s, es).stale == s.stale
    ensures forall k | k in Reach(cfg, s, es).store :: k in s.store && Reach(cfg, s, es).store[k] == s.store[k]
  {
    if es != [] {
      RunKeepsNoTouch(cfg, s, es[..|es| - 1]);
      NextKeepsNoTouch(cfg, Reach(cfg, s, es[..|es| - 1]), es[|es| - 1]);
    }
  }

  lemma StartTouchesNothing(cfg: Config, s: State)
    requires IsStart(s) && !CanTouch(cfg, s)
    ensures NoTouch(cfg, s)
  {
  }
}
