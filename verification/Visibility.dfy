/** What subscribers can see over every interleaving. The cleaner lists, records and deletes without the mutex, and is
    invisible all the same. */
module Visibility {
  import opened SessionTimes
  import opened Interleaved
  import opened Races

  /** What is_active would answer by. */
  function View(s: State): Sessions {
    Active(s.store, s.clock)
  }

  // The view is decided by time, saves and deletions.

  datatype Effect = Waited(seconds: nat) | Saved(imsi: string, session: Session) | Deleted(imsi: string)

  /** The effect that a step of a thread standing at `t` has on subscribers, if any. */
  function EffectOf(t: Thread): seq<Effect> {
    match t
    case TouchSave(imsi, now, expires, _) => [Saved(imsi, Session(now, expires))]
    case OffDelete(imsi, _) => [Deleted(imsi)]
    case _ => []
  }

  /** The effect of an event that happens in `s`, if any. */
  function EffectAt(s: State, e: Event): seq<Effect> {
    match e
    case Pass(seconds) => [Waited(seconds)]
    case Sweep(_) => []
    case Step(tid, _) => if tid < |s.threads| then EffectOf(s.threads[tid]) else []
  }

  function Effects(cfg: Config, s: State, es: seq<Event>): seq<Effect> {
    if es == [] then []
    else Effects(cfg, s, es[..|es| - 1]) + EffectAt(Reach(cfg, s, es[..|es| - 1]), es[|es| - 1])
  }

  datatype Picture = Picture(view: Sessions, clock: nat)

  function Show(p: Picture, f: Effect): Picture {
    match f
    case Waited(seconds) => Picture(Active(p.view, p.clock + seconds), p.clock + seconds)
    case Saved(imsi, session) =>
      p.(view := if p.clock < session.expires then p.view[imsi := session] else p.view - {imsi})
    case Deleted(imsi) => p.(view := p.view - {imsi})
  }

  function ShowAll(p: Picture, fs: seq<Effect>): Picture {
    if fs == [] then p else Show(ShowAll(p, fs[..|fs| - 1]), fs[|fs| - 1])
  }

  function PictureOf(s: State): Picture {
    Picture(View(s), s.clock)
  }

  /** No step of the cleaner changes the view, wherever it stands and whatever has happened since it last looked. */
  lemma SweepIsInvisible(cfg: Config, s: State, order: seq<string>)
    requires CleanerOk(s) && CanHappen(cfg, s, Sweep(order))
    ensures PictureOf(SweepStep(cfg, s, order)) == PictureOf(s)
  {
  }

  lemma SaveShows(store: Sessions, now: nat, imsi: string, session: Session)
    ensures Active(store[imsi := session], now) == Show(Picture(Active(store, now), now), Saved(imsi, session)).view
  {
  }

  lemma DeletionShows(store: Sessions, now: nat, imsi: string)
    ensures Active(store - {imsi}, now) == Active(store, now) - {imsi}
  {
  }

  lemma StoreAfterShows(store: Sessions, now: nat, t: Thread)
    ensures var f := EffectOf(t);
            Picture(Active(StoreAfter(store, t), now), now) ==
            if f == [] then Picture(Active(store, now), now) else Show(Picture(Active(store, now), now), f[0])
  {
    match t
    case TouchSave(imsi, created, expires, _) => SaveShows(store, now, imsi, Session(created, expires));
    case OffDelete(imsi, _) => DeletionShows(store, now, imsi);
    case _ =>
  }

  lemma ThreadStepShows(cfg: Config, s: State, tid: nat, input: Input)
    requires tid < |s.threads|
    ensures var f := EffectOf(s.threads[tid]);
            PictureOf(ThreadStep(cfg, s, tid, input)) == if f == [] then PictureOf(s) else Show(PictureOf(s), f[0])
  {
    StoreAfterShows(s.store, s.clock, s.threads[tid]);
  }

  lemma PassShows(s: State, seconds: nat)
    ensures PictureOf(s.(clock := s.clock + seconds)) == Show(PictureOf(s), Waited(seconds))
  {
  }

  lemma ShowSnoc(p: Picture, fs: seq<Effect>, gs: seq<Effect>)
    requires |gs| <= 1
    ensures ShowAll(p, fs + gs) == if gs == [] then ShowAll(p, fs) else Show(ShowAll(p, fs), gs[0])
  {
    if gs == [] {
      assert fs + gs == fs;
    } else {
      assert (fs + gs)[..|fs|] == fs;
    }
  }

  lemma NextShows(cfg: Config, s: State, e: Event)
    requires CleanerOk(s) && CanHappen(cfg, s, e)
    ensures |EffectAt(s, e)| <= 1
    ensures PictureOf(Next(cfg, s, e)) ==
            if EffectAt(s, e) == [] then PictureOf(s) else Show(PictureOf(s), EffectAt(s, e)[0])
  {
    match e
    case Pass(seconds) => PassShows(s, seconds);
    case Sweep(order) => SweepIsInvisible(cfg, s, order);
    case Step(tid, input) => ThreadStepShows(cfg, s, tid, input);
  }

  /** After every interleaved run the active sessions follow from those at the start, the time that has passed, the
      saves and the removals: the cleaner's steps and the kind of store play no part. */
  lemma {:induction false} ViewIsDecided(cfg: Config, s: State, es: seq<Event>)
    requires Mutex(s) && CleanerOk(s) && CanRun(cfg, s, es)
    ensures PictureOf(Reach(cfg, s, es)) == ShowAll(PictureOf(s), Effects(cfg, s, es))
  {
    if es != [] {
      var init, e := es[..|es| - 1], es[|es| - 1];
      ViewIsDecided(cfg, s, init);
      RunKeepsMutex(cfg, s, init);
      NextShows(cfg, Reach(cfg, s, init), e);
      ShowSnoc(PictureOf(s), Effects(cfg, s, init), EffectAt(Reach(cfg, s, init), e));
    }
  }

  /** So two runs with the same waits, saves and removals, on any two stores and with the cleaner at any steps of its
      own, end with the same active sessions. */
  lemma SubscribersCannotTell(cfg: Config, other: Config, s: State, t: State, es: seq<Event>, fs: seq<Event>)
    requires IsStart(s) && IsStart(t) && PictureOf(s) == PictureOf(t)
    requires CanRun(cfg, s, es) && CanRun(other, t, fs) && Effects(cfg, s, es) == Effects(other, t, fs)
    ensures PictureOf(Reach(cfg, s, es)) == PictureOf(Reach(other, t, fs))
  {
    ViewIsDecided(cfg, s, es);
    ViewIsDecided(other, t, fs);
  }

  // What is_active answers, told from the history of effects alone.

  predicate Concerns(f: Effect, imsi: string) {
    !f.Waited? && f.imsi == imsi
  }

  /** The last effect about `imsi` is the save of `session`, at position `u`. */
  predicate LastIsSave(fs: seq<Effect>, imsi: string, session: Session, u: nat) {
    u < |fs| && fs[u] == Saved(imsi, session) && forall j | u < j < |fs| :: !Concerns(fs[j], imsi)
  }

  predicate SavedLast(fs: seq<Effect>, imsi: string, session: Session) {
    exists u: nat | u < |fs| :: LastIsSave(fs, imsi, session, u)
  }

  predicate Untouched(fs: seq<Effect>, imsi: string) {
    forall j | 0 <= j < |fs| :: !Concerns(fs[j], imsi)
  }

  /** `session` is what the effects leave of `imsi`, but for its expiry. */
  predicate LeftOf(view: Sessions, fs: seq<Effect>, imsi: string, session: Session) {
    SavedLast(fs, imsi, session) || (Untouched(fs, imsi) && imsi in view && view[imsi] == session)
  }

  lemma SavedLastSnoc(fs: seq<Effect>, f: Effect, imsi: string, session: Session)
    ensures SavedLast(fs + [f], imsi, session) <==>
            f == Saved(imsi, session) || (!Concerns(f, imsi) && SavedLast(fs, imsi, session))
  {
    var all := fs + [f];
    assert all[|fs|] == f && forall j | 0 <= j < |fs| :: all[j] == fs[j];
    if f == Saved(imsi, session) {
      assert LastIsSave(all, imsi, session, |fs|);
    } else if !Concerns(f, imsi) && SavedLast(fs, imsi, session) {
      var u: nat :| u < |fs| && LastIsSave(fs, imsi, session, u);
      assert LastIsSave(all, imsi, session, u);
    } else if SavedLast(all, imsi, session) {
      var u: nat :| u < |all| && LastIsSave(all, imsi, session, u);
      assert u < |fs| ==> LastIsSave(fs, imsi, session, u);
    }
  }

  lemma LeftOfSnoc(view: Sessions, fs: seq<Effect>, f: Effect, imsi: string, session: Session)
    ensures LeftOf(view, fs + [f], imsi, session) <==>
            f == Saved(imsi, session) || (!Concerns(f, imsi) && LeftOf(view, fs, imsi, session))
  {
    SavedLastSnoc(fs, f, imsi, session);
    assert Untouched(fs + [f], imsi) <==> Untouched(fs, imsi) && !Concerns(f, imsi) by {
      assert (fs + [f])[|fs|] == f && forall j | 0 <= j < |fs| :: (fs + [f])[j] == fs[j];
    }
  }

  lemma {:induction false} ShownIfLeft(p: Picture, fs: seq<Effect>, imsi: string, session: Session)
    requires forall k | k in p.view :: p.clock < p.view[k].expires
    ensures var q := ShowAll(p, fs);
            (imsi in q.view && q.view[imsi] == session) <==>
            LeftOf(p.view, fs, imsi, session) && q.clock < session.expires
    decreases |fs|
  {
    if fs != [] {
      var init, f := fs[..|fs| - 1], fs[|fs| - 1];
      assert fs == init + [f];
      ShownIfLeft(p, init, imsi, session);
      LeftOfSnoc(p.view, init, f, imsi, session);
    }
  }

  /** After every interleaved run an IMSI is active, with a given session, exactly when that session was saved last and
      no removal came after, or nothing was saved or removed of it and it was active so at the start, and its expiry is
      still to come. */
  lemma ActiveExactlyByHistory(cfg: Config, s: State, es: seq<Event>, imsi: string, session: Session)
    requires Mutex(s) && CleanerOk(s) && CanRun(cfg, s, es)
    ensures var t := Reach(cfg, s, es);
            (imsi in View(t) && View(t)[imsi] == session) <==>
            LeftOf(View(s), Effects(cfg, s, es), imsi, session) && t.clock < session.expires
  {
    ViewIsDecided(cfg, s, es);
    ShownIfLeft(PictureOf(s), Effects(cfg, s, es), imsi, session);
  }

  // The same threads can take the same steps without any cleaner, on the other store.

  /** The threads stand alike, but a touch may find a session that the cleaner has removed on the other side; it then
      has no "created" record to write. */
  predicate StandAlike(a: Thread, b: Thread) {
    || a == b
    || (a.TouchSave? && !a.known && b == a.(known := true))
    || (a.TouchRecord? && b == TouchUnlock)
  }

  /** Subscribers see the same in `t`, which holds all that `s` holds, and its threads stand alike. */
  predicate LooksLike(s: State, t: State) {
    && PictureOf(s) == PictureOf(t) && s.store.Keys <= t.store.Keys
    && s.lock == t.lock && s.running == t.running && |s.threads| == |t.threads|
    && forall i | 0 <= i < |s.threads| :: StandAlike(s.threads[i], t.threads[i])
  }

  lemma SweepStaysAlike(cfg: Config, s: State, t: State, order: seq<string>)
    requires LooksLike(s, t) && CleanerOk(s) && CanHappen(cfg, s, Sweep(order))
    ensures LooksLike(SweepStep(cfg, s, order), t)
  {
    SweepIsInvisible(cfg, s, order);
    SweepOnlyRemoves(cfg, s, order);
  }

  lemma PassStaysAlike(s: State, t: State, seconds: nat)
    requires LooksLike(s, t)
    ensures LooksLike(s.(clock := s.clock + seconds), t.(clock := t.clock + seconds))
  {
    PassShows(s, seconds);
    PassShows(t, seconds);
  }

  lemma NoneActiveAlike(s: State, t: State)
    requires PictureOf(s) == PictureOf(t)
    ensures NoneActive(s) == NoneActive(t)
  {
    assert forall k | k in s.store && s.clock < s.store[k].expires :: k in View(t);
    assert forall k | k in t.store && t.clock < t.store[k].expires :: k in View(s);
  }

  /** A thread that stands alike can take the same step, and stands alike after it, or it need not. */
  lemma ThreadStaysAlike(cfg: Config, other: Config, s: State, t: State, a: Thread, b: Thread, input: Input)
    requires LooksLike(s, t) && StandAlike(a, b) && CanStep(cfg, s, a, input) && other == cfg.(kind := other.kind)
    ensures if a.TouchRecord? && b == TouchUnlock then StandAlike(ThreadAfter(cfg, s, a, input), b)
            else
              && CanStep(other, t, b, input)
              && StandAlike(ThreadAfter(cfg, s, a, input), ThreadAfter(other, t, b, input))
  {
    NoneActiveAlike(s, t);
    assert Active(s.store, s.clock) == Active(t.store, t.clock);
  }

  lemma StoresStayAlike(cfg: Config, other: Config, s: State, t: State, tid: nat, input: Input)
    requires LooksLike(s, t) && tid < |s.threads| && EffectOf(s.threads[tid]) == EffectOf(t.threads[tid])
    ensures var s', t' := ThreadStep(cfg, s, tid, input), ThreadStep(other, t, tid, input);
            PictureOf(s') == PictureOf(t') && s'.store.Keys <= t'.store.Keys
  {
    ThreadStepShows(cfg, s, tid, input);
    ThreadStepShows(other, t, tid, input);
  }

  lemma BothStepsStayAlike(cfg: Config, other: Config, s: State, t: State, tid: nat, input: Input)
    requires LooksLike(s, t) && CanHappen(cfg, s, Step(tid, input)) && other == cfg.(kind := other.kind)
    requires !(s.threads[tid].TouchRecord? && t.threads[tid] == TouchUnlock)
    ensures CanHappen(other, t, Step(tid, input))
    ensures LooksLike(ThreadStep(cfg, s, tid, input), ThreadStep(other, t, tid, input))
  {
    assert StandAlike(s.threads[tid], t.threads[tid]);
    ThreadStaysAlike(cfg, other, s, t, s.threads[tid], t.threads[tid], input);
    StoresStayAlike(cfg, other, s, t, tid, input);
  }

  lemma RecordStaysAlike(cfg: Config, s: State, t: State, tid: nat, input: Input)
    requires LooksLike(s, t) && tid < |s.threads| && s.threads[tid].TouchRecord? && t.threads[tid] == TouchUnlock
    ensures LooksLike(ThreadStep(cfg, s, tid, input), t)
  {
  }

  /** The other side may do without this event: it is the cleaner's, or it only writes a "created" record. */
  predicate Dispensable(s: State, e: Event) {
    e.Sweep? || (e.Step? && e.tid < |s.threads| && s.threads[e.tid].TouchRecord?)
  }

  lemma EffectsStandAlike(s: State, t: State, e: Event)
    requires LooksLike(s, t)
    ensures EffectAt(t, e) == EffectAt(s, e) && (Dispensable(s, e) ==> EffectAt(s, e) == [])
  {
    if e.Step? && e.tid < |s.threads| {
      assert StandAlike(s.threads[e.tid], t.threads[e.tid]);
    }
  }

  lemma NextStaysAlike(cfg: Config, other: Config, s: State, t: State, e: Event) returns (fs: seq<Event>)
    requires LooksLike(s, t) && CleanerOk(s) && CanHappen(cfg, s, e) && other == cfg.(kind := other.kind)
    ensures if fs == [] then Dispensable(s, e) else fs == [e] && !e.Sweep?
    ensures CanRun(other, t, fs) && LooksLike(Next(cfg, s, e), Reach(other, t, fs))
  {
    RunOne(other, t, e);
    match e
    case Pass(seconds) =>
      PassStaysAlike(s, t, seconds);
      fs := [e];
    case Sweep(order) =>
      SweepStaysAlike(cfg, s, t, order);
      fs := [];
    case Step(tid, input) =>
      if s.threads[tid].TouchRecord? && t.threads[tid] == TouchUnlock {
        RecordStaysAlike(cfg, s, t, tid, input);
        fs := [];
      } else {
        BothStepsStayAlike(cfg, other, s, t, tid, input);
        fs := [e];
      }
  }

  /** `fs` is `es` in order, without the cleaner's events and without some steps that write "created". */
  predicate Thinned(cfg: Config, s: State, es: seq<Event>, fs: seq<Event>)
    decreases |es|
  {
    if es == [] then fs == []
    else
      var init, e := es[..|es| - 1], es[|es| - 1];
      || (Dispensable(Reach(cfg, s, init), e) && Thinned(cfg, s, init, fs))
      || (!e.Sweep? && fs != [] && fs[|fs| - 1] == e && Thinned(cfg, s, init, fs[..|fs| - 1]))
  }

  lemma ThinnedSnoc(cfg: Config, s: State, es: seq<Event>, e: Event, fs: seq<Event>, last: seq<Event>)
    requires Thinned(cfg, s, es, fs)
    requires if last == [] then Dispensable(Reach(cfg, s, es), e) else last == [e] && !e.Sweep?
    ensures Thinned(cfg, s, es + [e], fs + last)
  {
    assert (es + [e])[..|es|] == es;
    if last == [] {
      assert fs + last == fs;
    } else {
      assert (fs + last)[..|fs|] == fs;
    }
  }

  lemma EffectsSnoc(cfg: Config, s: State, es: seq<Event>, last: seq<Event>)
    requires |last| <= 1
    ensures Effects(cfg, s, es + last) ==
            Effects(cfg, s, es) + if last == [] then [] else EffectAt(Reach(cfg, s, es), last[0])
  {
    if last == [] {
      assert es + last == es;
    } else {
      assert (es + last)[..|es|] == es;
    }
  }

  lemma EffectsStayAlike(cfg: Config, other: Config, s: State, t: State, es: seq<Event>, e: Event,
                         fs: seq<Event>, last: seq<Event>)
    requires LooksLike(Reach(cfg, s, es), Reach(other, t, fs)) && Effects(cfg, s, es) == Effects(other, t, fs)
    requires if last == [] then Dispensable(Reach(cfg, s, es), e) else last == [e]
    ensures Effects(cfg, s, es + [e]) == Effects(other, t, fs + last)
  {
    EffectsStandAlike(Reach(cfg, s, es), Reach(other, t, fs), e);
    EffectsSnoc(cfg, s, es, [e]);
    EffectsSnoc(other, t, fs, last);
  }

  /** Whatever a server with a cleaner does, on either store, it could do on any store with the cleaner standing still:
      the same threads take the same steps in the same order, less some that write "created", with the same waits,
      saves and removals, and the same sessions are active. */
  lemma {:induction false} CleanerIsInvisible(cfg: Config, other: Config, s: State, t: State, es: seq<Event>)
    returns (fs: seq<Event>)
    requires Mutex(s) && CleanerOk(s) && CanRun(cfg, s, es) && other == cfg.(kind := other.kind) && LooksLike(s, t)
    ensures CanRun(other, t, fs) && LooksLike(Reach(cfg, s, es), Reach(other, t, fs))
    ensures Thinned(cfg, s, es, fs) && Effects(cfg, s, es) == Effects(other, t, fs)
    decreases |es|
  {
    if es == [] {
      fs := [];
    } else {
      var init, e := es[..|es| - 1], es[|es| - 1];
      assert es == init + [e];
      var before := CleanerIsInvisible(cfg, other, s, t, init);
      var s', t' := Reach(cfg, s, init), Reach(other, t, before);
      RunKeepsMutex(cfg, s, init);
      var last := NextStaysAlike(cfg, other, s', t', e);
      RunConcat(other, t, before, last);
      ThinnedSnoc(cfg, s, init, e, before, last);
      EffectsStayAlike(cfg, other, s, t, init, e, before, last);
      fs := before + last;
    }
  }
}
