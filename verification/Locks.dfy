/** The three mutexes (the manager's, the store's and the CDR writer's) with every acquisition and release a
    step of its own. Threads run any of the code's locking paths, one after the other, in any number. */
module Locks {

  datatype Mutex = Manager | Store | Cdr

  datatype Op = Acquire(m: Mutex) | Release(m: Mutex)

  /** The locking paths of the code. A wait on a condition variable releases its mutex and takes it again. */
  datatype Path =
    | Restore            // the load in the manager's constructor, before its mutex is shared
    | Refresh            // touch_session of a stored IMSI
    | Create             // touch_session of a new IMSI
    | Look               // is_active, the check of graceful_stop, the choice of offload_rate
    | Expire             // the second block of offload_rate
    | Round(n: nat)      // a cleaner round with n expired sessions, and its wait
    | Produce            // CdrWriter::write, and the destructor's request
    | Consume(n: nat)    // a turn of the writer loop that wakes n times

  function Call(m: Mutex): seq<Op> {
    [Acquire(m), Release(m)]
  }

  function Calls(m: Mutex, n: nat): seq<Op> {
    if n == 0 then [] else Call(m) + Calls(m, n - 1)
  }

  function OpsOf(p: Path): seq<Op> {
    match p
    case Restore => Call(Store)
    case Refresh => [Acquire(Manager)] + (Calls(Store, 2) + [Release(Manager)])
    case Create => [Acquire(Manager)] + (Calls(Store, 2) + (Call(Cdr) + [Release(Manager)]))
    case Look => [Acquire(Manager)] + (Call(Store) + [Release(Manager)])
    case Expire => [Acquire(Manager)] + (Call(Store) + (Call(Cdr) + [Release(Manager)]))
    case Round(n) => Call(Store) + (Calls(Cdr, n) + (Call(Store) + Calls(Manager, 2)))
    case Produce => Call(Cdr)
    case Consume(n) => Calls(Cdr, n + 1)
  }

  /** A thread: the path it is on, what it has yet to do there, and which mutexes it holds. */
  datatype Job = Job(path: Path, todo: seq<Op>, held: set<Mutex>)

  datatype Event = Start(i: nat, p: Path) | Do(i: nat)

  predicate IsFree(s: seq<Job>, m: Mutex) {
    forall j | 0 <= j < |s| :: m !in s[j].held
  }

  predicate CanDo(s: seq<Job>, i: nat) {
    i < |s| && s[i].todo != [] && (s[i].todo[0].Acquire? ==> IsFree(s, s[i].todo[0].m))
  }

  predicate CanHappen(s: seq<Job>, e: Event) {
    match e
    case Start(i, _) => i < |s| && s[i].todo == []
    case Do(i) => CanDo(s, i)
  }

  function After(j: Job): Job
    requires j.todo != []
  {
    match j.todo[0]
    case Acquire(m) => j.(todo := j.todo[1..], held := j.held + {m})
    case Release(m) => j.(todo := j.todo[1..], held := j.held - {m})
  }

  function Next(s: seq<Job>, e: Event): seq<Job>
    requires CanHappen(s, e)
  {
    match e
    case Start(i, p) => s[i := Job(p, OpsOf(p), s[i].held)]
    case Do(i) => s[i := After(s[i])]
  }

  predicate CanRun(s: seq<Job>, es: seq<Event>)
    decreases |es|
  {
    es == [] || (CanHappen(s, es[0]) && CanRun(Next(s, es[0]), es[1..]))
  }

  function Reach(s: seq<Job>, es: seq<Event>): seq<Job>
    requires CanRun(s, es)
    decreases |es|
  {
    if es == [] then s else Reach(Next(s, es[0]), es[1..])
  }

  function Rank(m: Mutex): nat {
    match m
    case Manager => 0
    case Store => 1
    case Cdr => 2
  }

  /** With `held` in hand, `todo` takes mutexes in the order of their ranks only, never has the store's and the
      CDR writer's together, gives back only what it has, and ends with nothing. */
  predicate Ordered(held: set<Mutex>, todo: seq<Op>)
    decreases |todo|
  {
    !(Store in held && Cdr in held) &&
    if todo == [] then held == {}
    else
      match todo[0]
      case Acquire(m) => (forall h | h in held :: Rank(h) < Rank(m)) && Ordered(held + {m}, todo[1..])
      case Release(m) => m in held && Ordered(held - {m}, todo[1..])
  }

  lemma CallIsOrdered(held: set<Mutex>, m: Mutex, rest: seq<Op>)
    requires (forall h | h in held :: Rank(h) < Rank(m)) && Ordered(held, rest) && held <= {Manager}
    ensures Ordered(held, Call(m) + rest)
  {
    var todo := Call(m) + rest;
    assert todo[1..][1..] == rest && todo[0] == Acquire(m) && todo[1..][0] == Release(m);
    assert held + {m} - {m} == held;
    assert Ordered(held + {m}, todo[1..]);
  }

  lemma {:induction false} CallsAreOrdered(held: set<Mutex>, m: Mutex, n: nat, rest: seq<Op>)
    requires (forall h | h in held :: Rank(h) < Rank(m)) && Ordered(held, rest) && held <= {Manager}
    ensures Ordered(held, Calls(m, n) + rest)
  {
    if n == 0 {
      assert Calls(m, n) + rest == rest;
    } else {
      CallsAreOrdered(held, m, n - 1, rest);
      CallIsOrdered(held, m, Calls(m, n - 1) + rest);
      assert Calls(m, n) + rest == Call(m) + (Calls(m, n - 1) + rest);
    }
  }

  lemma LockedIsOrdered(inner: seq<Op>)
    requires Ordered({Manager}, inner)
    ensures Ordered({}, [Acquire(Manager)] + inner)
  {
    assert ([Acquire(Manager)] + inner)[1..] == inner;
    assert {} + {Manager} == {Manager};
  }

  lemma EveryPathIsOrdered(p: Path)
    ensures Ordered({}, OpsOf(p))
  {
    var end := [Release(Manager)];
    assert {Manager} - {Manager} == {} && end[1..] == [];
    assert Ordered({Manager}, end);
    match p
    case Restore =>
      CallIsOrdered({}, Store, []);
      assert Call(Store) + [] == Call(Store);
    case Refresh => CallsAreOrdered({Manager}, Store, 2, end); LockedIsOrdered(Calls(Store, 2) + end);
    case Create =>
      CallIsOrdered({Manager}, Cdr, end);
      CallsAreOrdered({Manager}, Store, 2, Call(Cdr) + end);
      LockedIsOrdered(Calls(Store, 2) + (Call(Cdr) + end));
    case Look => CallIsOrdered({Manager}, Store, end); LockedIsOrdered(Call(Store) + end);
    case Expire =>
      CallIsOrdered({Manager}, Cdr, end);
      CallIsOrdered({Manager}, Store, Call(Cdr) + end);
      LockedIsOrdered(Call(Store) + (Call(Cdr) + end));
    case Round(n) =>
      CallsAreOrdered({}, Manager, 2, []);
      assert Calls(Manager, 2) + [] == Calls(Manager, 2);
      CallIsOrdered({}, Store, Calls(Manager, 2));
      CallsAreOrdered({}, Cdr, n, Call(Store) + Calls(Manager, 2));
      CallIsOrdered({}, Store, Calls(Cdr, n) + (Call(Store) + Calls(Manager, 2)));
    case Produce => CallIsOrdered({}, Cdr, []); assert Call(Cdr) + [] == Call(Cdr);
    case Consume(n) => CallsAreOrdered({}, Cdr, n + 1, []); assert Calls(Cdr, n + 1) + [] == Calls(Cdr, n + 1);
  }

  predicate Disciplined(s: seq<Job>) {
    && (forall i | 0 <= i < |s| :: Ordered(s[i].held, s[i].todo))
    && (forall i, j | 0 <= i < j < |s| :: s[i].held !! s[j].held)
  }

  lemma NextStaysDisciplined(s: seq<Job>, e: Event)
    requires Disciplined(s) && CanHappen(s, e)
    ensures Disciplined(Next(s, e))
  {
    match e
    case Start(i, p) =>
      EveryPathIsOrdered(p);
      assert s[i].held == {};
    case Do(i) =>
      assert Ordered(After(s[i]).held, After(s[i]).todo);
  }

  lemma {:induction false} RunStaysDisciplined(s: seq<Job>, es: seq<Event>)
    requires Disciplined(s) && CanRun(s, es)
    ensures Disciplined(Reach(s, es))
    decreases |es|
  {
    if es != [] {
      NextStaysDisciplined(s, es[0]);
      RunStaysDisciplined(Next(s, es[0]), es[1..]);
    }
  }

  predicate Blocked(s: seq<Job>, i: nat) {
    i < |s| && s[i].todo != [] && s[i].todo[0].Acquire? && !IsFree(s, s[i].todo[0].m)
  }

  /** Following a blocked thread to the holder of its mutex, and on, ends at a holder that can go on. */
  lemma HolderCanGoOn(s: seq<Job>, i: nat) returns (k: nat)
    requires Disciplined(s) && Blocked(s, i)
    ensures CanDo(s, k) && s[k].held != {}
    decreases 2 - Rank(s[i].todo[0].m)
  {
    var m := s[i].todo[0].m;
    k :| 0 <= k < |s| && m in s[k].held;
    assert Ordered(s[k].held, s[k].todo);
    if Blocked(s, k) {
      assert Rank(m) < Rank(s[k].todo[0].m);
      k := HolderCanGoOn(s, k);
    }
  }

  /** In every state that any run of any number of threads reaches: a mutex has one owner at most, no thread
      holds the store's and the CDR writer's mutex together, and whenever a thread is blocked, some thread
      that holds a mutex can take a step. */
  lemma NoDeadlock(s: seq<Job>, es: seq<Event>)
    requires CanRun(s, es) && forall i | 0 <= i < |s| :: s[i].todo == [] && s[i].held == {}
    ensures var t := Reach(s, es);
            && (forall i, j | 0 <= i < j < |t| :: t[i].held !! t[j].held)
            && (forall i | 0 <= i < |t| :: !(Store in t[i].held && Cdr in t[i].held))
            && (forall i: nat | Blocked(t, i) :: exists k: nat :: CanDo(t, k) && t[k].held != {})
  {
    RunStaysDisciplined(s, es);
    var t := Reach(s, es);
    assert forall i | 0 <= i < |t| :: Ordered(t[i].held, t[i].todo);
    forall i: nat | Blocked(t, i)
      ensures exists k: nat :: CanDo(t, k) && t[k].held != {}
    {
      var k := HolderCanGoOn(t, i);
    }
  }

  // What each path takes.

  function Acquired(ops: seq<Op>, m: Mutex): nat {
    if ops == [] then 0 else (if ops[0] == Acquire(m) then 1 else 0) + Acquired(ops[1..], m)
  }

  lemma {:induction false} AcquiredConcat(a: seq<Op>, b: seq<Op>, m: Mutex)
    ensures Acquired(a + b, m) == Acquired(a, m) + Acquired(b, m)
  {
    if a == [] {
      assert a + b == b;
    } else {
      assert (a + b)[1..] == a[1..] + b;
      AcquiredConcat(a[1..], b, m);
    }
  }

  lemma {:induction false} AcquiredByCalls(k: Mutex, n: nat, m: Mutex)
    ensures Acquired(Calls(k, n), m) == if k == m then n else 0
    ensures Acquired(Call(k), m) == if k == m then 1 else 0
  {
    assert Call(k)[1..] == [Release(k)] && Acquired([Release(k)], m) == 0;
    if n > 0 {
      AcquiredByCalls(k, n - 1, m);
      AcquiredConcat(Call(k), Calls(k, n - 1), m);
    }
  }

  /** How often each path takes the store's mutex and the CDR writer's: one time for each call. */
  function StoreCalls(p: Path): nat {
    match p
    case Refresh => 2
    case Create => 2
    case Round(_) => 2
    case Restore => 1
    case Look => 1
    case Expire => 1
    case _ => 0
  }

  function CdrCalls(p: Path): nat {
    match p
    case Create => 1
    case Expire => 1
    case Round(n) => n
    case Produce => 1
    case Consume(n) => n + 1
    case _ => 0
  }

  function ManagerCalls(p: Path): nat {
    match p
    case Round(_) => 2
    case _ => if IsSession(p) then 1 else 0
  }

  lemma AcquiredInBlock(inner: seq<Op>, m: Mutex)
    ensures Acquired([Acquire(Manager)] + (inner + [Release(Manager)]), m) ==
            Acquired(inner, m) + if m == Manager then 1 else 0
  {
    assert ([Acquire(Manager)] + (inner + [Release(Manager)]))[1..] == inner + [Release(Manager)];
    AcquiredConcat(inner, [Release(Manager)], m);
    assert Acquired([Release(Manager)], m) == 0;
  }

  /** How often the path takes the mutex. */
  function Calling(p: Path, m: Mutex): nat {
    match m
    case Manager => ManagerCalls(p)
    case Store => StoreCalls(p)
    case Cdr => CdrCalls(p)
  }

  lemma SessionPathAcquires(p: Path, m: Mutex)
    requires IsSession(p)
    ensures Acquired(OpsOf(p), m) == Calling(p, m)
  {
    var end := [Release(Manager)];
    AcquiredByCalls(Store, 2, m);
    AcquiredByCalls(Cdr, 1, m);
    match p {
      case Refresh => AcquiredInBlock(Calls(Store, 2), m);
      case Create =>
        AcquiredInBlock(Calls(Store, 2) + Call(Cdr), m);
        AcquiredConcat(Calls(Store, 2), Call(Cdr), m);
        assert Calls(Store, 2) + Call(Cdr) + end == Calls(Store, 2) + (Call(Cdr) + end);
      case Look => AcquiredInBlock(Call(Store), m);
      case Expire =>
        AcquiredInBlock(Call(Store) + Call(Cdr), m);
        AcquiredConcat(Call(Store), Call(Cdr), m);
        assert Call(Store) + Call(Cdr) + end == Call(Store) + (Call(Cdr) + end);
    }
  }

  lemma RoundAcquires(n: nat, m: Mutex)
    ensures Acquired(OpsOf(Round(n)), m) == Calling(Round(n), m)
  {
    var wait := Calls(Manager, 2);
    AcquiredByCalls(Store, 1, m);
    AcquiredByCalls(Cdr, n, m);
    AcquiredByCalls(Manager, 2, m);
    AcquiredConcat(Call(Store), wait, m);
    AcquiredConcat(Calls(Cdr, n), Call(Store) + wait, m);
    AcquiredConcat(Call(Store), Calls(Cdr, n) + (Call(Store) + wait), m);
  }

  /** Each path takes each mutex once for each of its calls. */
  lemma PathAcquires(p: Path, m: Mutex)
    ensures Acquired(OpsOf(p), m) == Calling(p, m)
  {
    match p
    case Restore => AcquiredByCalls(Store, 1, m);
    case Round(n) => RoundAcquires(n, m);
    case Produce => AcquiredByCalls(Cdr, 1, m);
    case Consume(n) => AcquiredByCalls(Cdr, n + 1, m);
    case _ => SessionPathAcquires(p, m);
  }

  // The session operations exclude each other.

  predicate IsSession(p: Path) {
    p == Refresh || p == Create || p == Look || p == Expire
  }

  /** From here on, the store's and the CDR writer's mutex are held only together with the manager's. */
  predicate Guarded(held: set<Mutex>, todo: seq<Op>)
    decreases |todo|
  {
    && (Store in held || Cdr in held ==> Manager in held)
    && (todo != [] ==>
          match todo[0]
          case Acquire(m) => Guarded(held + {m}, todo[1..])
          case Release(m) => Guarded(held - {m}, todo[1..]))
  }

  lemma CallIsGuarded(m: Mutex, rest: seq<Op>)
    requires m != Manager && Guarded({Manager}, rest)
    ensures Guarded({Manager}, Call(m) + rest)
  {
    var todo := Call(m) + rest;
    assert todo[0] == Acquire(m) && todo[1..][0] == Release(m) && todo[1..][1..] == rest;
    assert {Manager} + {m} - {m} == {Manager};
    assert Guarded({Manager} + {m}, todo[1..]);
  }

  lemma {:induction false} CallsAreGuarded(m: Mutex, n: nat, rest: seq<Op>)
    requires m != Manager && Guarded({Manager}, rest)
    ensures Guarded({Manager}, Calls(m, n) + rest)
  {
    if n == 0 {
      assert Calls(m, n) + rest == rest;
    } else {
      CallsAreGuarded(m, n - 1, rest);
      CallIsGuarded(m, Calls(m, n - 1) + rest);
      assert Calls(m, n) + rest == Call(m) + (Calls(m, n - 1) + rest);
    }
  }

  lemma SessionPathsAreGuarded(p: Path)
    requires IsSession(p)
    ensures Guarded({}, OpsOf(p))
  {
    var end := [Release(Manager)];
    assert {Manager} - {Manager} == {} && end[1..] == [] && {} + {Manager} == {Manager};
    assert Guarded({}, []) && Guarded({Manager}, end);
    match p {
      case Refresh => CallsAreGuarded(Store, 2, end);
      case Create =>
        CallIsGuarded(Cdr, end);
        CallsAreGuarded(Store, 2, Call(Cdr) + end);
      case Look => CallIsGuarded(Store, end);
      case Expire =>
        CallIsGuarded(Cdr, end);
        CallIsGuarded(Store, Call(Cdr) + end);
    }
    assert OpsOf(p)[0] == Acquire(Manager) && Guarded({Manager}, OpsOf(p)[1..]);
  }

  predicate SessionsGuarded(s: seq<Job>) {
    forall i | 0 <= i < |s| && IsSession(s[i].path) :: Guarded(s[i].held, s[i].todo)
  }

  lemma {:induction false} RunStaysGuarded(s: seq<Job>, es: seq<Event>)
    requires Disciplined(s) && SessionsGuarded(s) && CanRun(s, es)
    ensures SessionsGuarded(Reach(s, es))
    decreases |es|
  {
    if es != [] {
      NextStaysDisciplined(s, es[0]);
      if es[0].Start? && IsSession(es[0].p) {
        SessionPathsAreGuarded(es[0].p);
        assert s[es[0].i].held == {};
      }
      RunStaysGuarded(Next(s, es[0]), es[1..]);
    }
  }

  /** In every state that any run of any number of threads reaches, a thread that is inside a store call or a CDR write
      of touch_session, is_active, offload_rate or graceful_stop holds the manager's mutex, and no two threads do. */
  lemma SessionOperationsExclude(s: seq<Job>, es: seq<Event>)
    requires CanRun(s, es) && forall i | 0 <= i < |s| :: s[i].todo == [] && s[i].held == {}
    ensures var t := Reach(s, es);
            && (forall i | 0 <= i < |t| && IsSession(t[i].path) ::
                  Store in t[i].held || Cdr in t[i].held ==> Manager in t[i].held)
            && (forall i, j | 0 <= i < j < |t| :: !(Manager in t[i].held && Manager in t[j].held))
  {
    RunStaysDisciplined(s, es);
    RunStaysGuarded(s, es);
    var t := Reach(s, es);
    assert forall i | 0 <= i < |t| && IsSession(t[i].path) :: Guarded(t[i].held, t[i].todo);
    assert forall i, j | 0 <= i < j < |t| :: t[i].held !! t[j].held;
  }
}
