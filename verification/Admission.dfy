/** Which IMSIs get into the server, over every interleaving; and what a client is told. */
module Admission {
  import opened Bcd
  import opened SessionTimes
  import opened Interleaved
  import opened CdrLog
  import opened ManagerSpec
  import opened TextTime
  import Calendar

  predicate ThreadImsi(t: Thread, p: string -> bool) {
    match t
    case TouchNow(imsi) => p(imsi)
    case TouchExpires(imsi, _) => p(imsi)
    case TouchLock(imsi, _, _) => p(imsi)
    case TouchExists(imsi, _, _) => p(imsi)
    case TouchSave(imsi, _, _, _) => p(imsi)
    case TouchRecord(imsi, _) => p(imsi)
    case OffLock(imsi, _) => p(imsi)
    case OffDelete(imsi, _) => p(imsi)
    case OffRecord(imsi, _) => p(imsi)
    case _ => true
  }

  /** Every IMSI anywhere in the server has the property. */
  predicate AllImsis(s: State, p: string -> bool) {
    && (forall k | k in s.store :: p(k))
    && (forall e | e in s.log :: p(e.imsi))
    && (forall t | t in s.threads :: ThreadImsi(t, p))
    && (s.cleaner.CleanRecord? ==> forall k | k in s.cleaner.listed :: p(k))
  }

  /** Every IMSI that the server lets in has the property. */
  ghost predicate LetsIn(cfg: Config, p: string -> bool) {
    forall b: seq<Byte> :: Decode(b) !in cfg.blocked ==> p(Decode(b))
  }

  lemma ThreadStepImsis(cfg: Config, s: State, tid: nat, input: Input, p: string -> bool)
    requires LetsIn(cfg, p) && AllImsis(s, p) && tid < |s.threads| && CanStep(cfg, s, s.threads[tid], input)
    ensures ThreadImsi(ThreadAfter(cfg, s, s.threads[tid], input), p)
  {
    assert ThreadImsi(s.threads[tid], p);
  }

  lemma ThreadEffectImsis(s: State, t: Thread, p: string -> bool)
    requires AllImsis(s, p) && ThreadImsi(t, p)
    ensures forall k | k in StoreAfter(s.store, t) :: p(k)
    ensures forall e | e in LogAfter(s.log, s.clock, t) :: p(e.imsi)
  {
  }

  lemma NextKeepsImsis(cfg: Config, s: State, e: Event, p: string -> bool)
    requires LetsIn(cfg, p) && AllImsis(s, p) && CanHappen(cfg, s, e)
    ensures AllImsis(Next(cfg, s, e), p)
  {
    if e.Step? {
      assert s.threads[e.tid] in s.threads;
      ThreadStepImsis(cfg, s, e.tid, e.input, p);
      ThreadEffectImsis(s, s.threads[e.tid], p);
    }
  }

  lemma {:induction false} RunKeepsImsis(cfg: Config, s: State, es: seq<Event>, p: string -> bool)
    requires LetsIn(cfg, p) && AllImsis(s, p) && CanRun(cfg, s, es)
    ensures AllImsis(Reach(cfg, s, es), p)
  {
    if es != [] {
      RunKeepsImsis(cfg, s, es[..|es| - 1], p);
      NextKeepsImsis(cfg, Reach(cfg, s, es[..|es| - 1]), es[|es| - 1], p);
    }
  }

  /** In every run from a store without blacklisted IMSIs, none ever gets into the store or the log, or is
      even worked on, whatever packets arrive. */
  lemma BlacklistedNeverGetsIn(cfg: Config, s: State, es: seq<Event>, imsi: string)
    requires IsStart(s) && s.store.Keys !! cfg.blocked && CanRun(cfg, s, es) && imsi in cfg.blocked
    ensures var t := Reach(cfg, s, es);
            && imsi !in t.store && (forall e | e in t.log :: e.imsi != imsi)
            && (forall i | 0 <= i < |t.threads| :: t.threads[i] != TouchNow(imsi))
  {
    var p := k => k !in cfg.blocked;
    assert AllImsis(s, p);
    RunKeepsImsis(cfg, s, es, p);
    var t := Reach(cfg, s, es);
    assert forall i | 0 <= i < |t.threads| :: t.threads[i] in t.threads && ThreadImsi(t.threads[i], p);
  }

  lemma {:induction false} PrintedLogIsPlain(text: TimeText, log: seq<Entry>)
    requires (forall t: nat :: Plain(text(t))) && forall e | e in log :: AllSymbols(e.imsi)
    ensures forall r | r in PrintLog(text, log) :: PlainRecord(r)
  {
    if log != [] {
      PrintedLogIsPlain(text, log[..|log| - 1]);
      assert log[|log| - 1] in log;
    }
  }

  /** The CDR file of every run reads back as the records written, if the printed times hold no separator. */
  lemma CdrFileReadsBack(cfg: Config, s: State, es: seq<Event>, text: TimeText)
    requires IsStart(s) && CanRun(cfg, s, es) && forall k | k in s.store :: AllSymbols(k)
    requires forall t: nat :: Plain(text(t))
    ensures var records := PrintLog(text, Reach(cfg, s, es).log);
            ReadBack(Print(records)) == AllColumns(records)
  {
    var p := k => AllSymbols(k);
    forall b: seq<Byte>
      ensures p(Decode(b))
    {
      DecodeGivesSymbols(b);
    }
    RunKeepsImsis(cfg, s, es, p);
    var log := Reach(cfg, s, es).log;
    assert forall e | e in log :: p(e.imsi);
    PrintedLogIsPlain(text, log);
    PlainFilesReadBack(PrintLog(text, log));
  }

  lemma RenderIsPlain()
    ensures forall t: nat :: Plain(Calendar.Render(t))
  {
    forall t: nat
      ensures Plain(Calendar.Render(t))
    {
      Calendar.RenderHasNoSeparators(t);
    }
  }

  /** So the server's own CDR file is uniquely parseable. */
  lemma ServerCdrFileReadsBack(cfg: Config, s: State, es: seq<Event>)
    requires IsStart(s) && CanRun(cfg, s, es) && forall k | k in s.store :: AllSymbols(k)
    ensures var records := PrintLog(Calendar.Render, Reach(cfg, s, es).log);
            ReadBack(Print(records)) == AllColumns(records)
  {
    RenderIsPlain();
    CdrFileReadsBack(cfg, s, es, Calendar.Render);
  }

  // What a client is told.

  datatype Reply = NoReply | Answer(text: string)

  /** The server's answer to a datagram. */
  function Verdict(blocked: set<string>, datagram: seq<Byte>): Reply {
    if datagram == [] then NoReply
    else if Decode(Received(datagram)) in blocked then Answer("rejected")
    else Answer("created")
  }

  /** A client that sends an IMSI is rejected exactly when its first 32 symbols are in the list; so, up to 32
      symbols, exactly when the IMSI is. An empty IMSI gets no answer at all. */
  lemma ClientIsTold(blocked: set<string>, imsi: string)
    requires AllSymbols(imsi)
    ensures Verdict(blocked, Encode(imsi)) ==
            if imsi == "" then NoReply
            else if Take(imsi, MAX_SYMBOLS) in blocked then Answer("rejected")
            else Answer("created")
    ensures imsi != "" && |imsi| <= 32 ==>
              (Verdict(blocked, Encode(imsi)) == Answer("rejected") <==> imsi in blocked)
  {
    DecodeReceivedEncode(imsi);
    EncodeLength(imsi);
  }

  /** A client that sends a listed IMSI of 1 to 32 symbols is always rejected. */
  lemma ListedIsRejected(blocked: set<string>, imsi: string)
    requires AllSymbols(imsi) && 0 < |imsi| <= 32 && imsi in blocked
    ensures Verdict(blocked, Encode(imsi)) == Answer("rejected")
  {
    ClientIsTold(blocked, imsi);
  }

  /** A worker does with each packet what its sender is told: it touches the IMSI of one that is answered "created",
      and goes back to its loop with any other. */
  lemma WorkerFollowsVerdict(cfg: Config, s: State, tid: nat, datagram: seq<Byte>)
    requires tid < |s.threads| && s.threads[tid] == UdpReceive
    ensures CanHappen(cfg, s, Step(tid, Datagram(datagram)))
    ensures var s' := Next(cfg, s, Step(tid, Datagram(datagram)));
            && s'.store == s.store && s'.log == s.log && s'.lock == s.lock
            && s'.threads == s.threads[tid := if Verdict(cfg.blocked, datagram) == Answer("created")
                                              then TouchNow(Decode(Received(datagram))) else UdpLoop]
  {
  }

  /** Listing an IMSI of more than 32 symbols has no effect on clients that send it. */
  lemma LongListingIsVain(imsi: string)
    requires AllSymbols(imsi) && |imsi| > 32
    ensures Verdict({imsi}, Encode(imsi)) == Answer("created")
  {
    ClientIsTold({imsi}, imsi);
    assert |Take(imsi, MAX_SYMBOLS)| == MAX_SYMBOLS;
  }
}
