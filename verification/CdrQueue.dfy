/** The CDR queue under concurrency: any number of producers, one writer thread, one stop request,
    interleaved at the points where the queue's mutex is free. */
module CdrQueue {
  import opened CdrLog

  datatype Writer =
    | Testing                    // about to take the mutex and test the condition
    | Asleep                     // waiting on the condition variable
    | InHand(rec: CdrRecord)     // popped, mutex released, not yet in the file
    | Exited

  /** `notifies` counts producers that have pushed but not yet called notify_one. `history` holds the
      records of all write calls so far, `written` those of them that are in the file. */
  datatype State = State(queue: seq<CdrRecord>, stop: bool, writer: Writer, text: string,
                         notifies: nat, history: seq<CdrRecord>, written: seq<CdrRecord>)

  datatype Event =
    | Push(rec: CdrRecord)
    | Notify
    | Stop
    | Spurious     // a wake-up without a notification
    | Test
    | Put

  predicate Enabled(s: State, e: Event) {
    match e
    case Push(_) => true
    case Notify => s.notifies > 0
    case Stop => true
    case Spurious => s.writer == Asleep
    case Test => s.writer == Testing
    case Put => s.writer.InHand?
  }

  function Wake(w: Writer): Writer {
    if w == Asleep then Testing else w
  }

  function Apply(s: State, e: Event): State
    requires Enabled(s, e)
  {
    match e
    case Push(rec) => s.(queue := s.queue + [rec], history := s.history + [rec], notifies := s.notifies + 1)
    case Notify => s.(notifies := s.notifies - 1, writer := Wake(s.writer))
    case Stop => s.(stop := true, writer := Wake(s.writer))
    case Spurious => s.(writer := Testing)
    case Test =>
      if s.queue != [] then s.(queue := s.queue[1..], writer := InHand(s.queue[0]))
      else if s.stop then s.(writer := Exited)
      else s.(writer := Asleep)
    case Put =>
      s.(text := s.text + Line(s.writer.rec), written := s.written + [s.writer.rec], writer := Testing)
  }

  predicate Runs(s: State, es: seq<Event>)
    decreases |es|
  {
    es == [] || (Enabled(s, es[0]) && Runs(Apply(s, es[0]), es[1..]))
  }

  function After(s: State, es: seq<Event>): State
    requires Runs(s, es)
    decreases |es|
  {
    if es == [] then s else After(Apply(s, es[0]), es[1..])
  }

  /** The file was opened and its present contents are `before`. */
  function Start(before: string): State {
    State([], false, Testing, before, 0, [], [])
  }

  function Hand(w: Writer): seq<CdrRecord> {
    if w.InHand? then [w.rec] else []
  }

  /** All records in the order of their write calls: in the file, in hand, waiting. */
  function Order(s: State): seq<CdrRecord> {
    s.written + (Hand(s.writer) + s.queue)
  }

  predicate Invariant(before: string, s: State) {
    && s.text == before + Print(s.written)
    && Order(s) == s.history
    && (s.writer == Asleep ==> !s.stop && (s.queue != [] ==> s.notifies > 0))
    && (s.writer == Exited ==> s.stop)
  }

  lemma StepKeepsOrder(s: State, e: Event)
    requires Enabled(s, e)
    ensures Order(Apply(s, e)) == Order(s) + if e.Push? then [e.rec] else []
  {
    if e == Test && s.queue != [] {
      assert [s.queue[0]] + s.queue[1..] == s.queue;
    }
  }

  lemma StepKeepsInvariant(before: string, s: State, e: Event)
    requires Invariant(before, s) && Enabled(s, e)
    ensures Invariant(before, Apply(s, e))
  {
    StepKeepsOrder(s, e);
    match e
    case Push(_) =>
    case Put => PrintAppend(s.written, s.writer.rec);
    case _ =>
  }

  /** In every interleaving the file, the record in hand and the queue make up the order of the
      write calls, and the writer never sleeps through work: if it is asleep and there is something
      to do, a notification is still to come. */
  lemma {:induction false} NothingLostNothingReordered(before: string, s: State, es: seq<Event>)
    requires Invariant(before, s) && Runs(s, es)
    ensures Invariant(before, After(s, es))
    decreases |es|
  {
    if es != [] {
      StepKeepsInvariant(before, s, es[0]);
      NothingLostNothingReordered(before, Apply(s, es[0]), es[1..]);
    }
  }

  lemma StartInvariant(before: string)
    ensures Invariant(before, Start(before))
  {
    assert Print([]) == "";
  }

  /** The writer leaves only after a stop request, and then the file holds every record written so far. */
  lemma ExitMeansDrained(before: string, es: seq<Event>, e: Event)
    requires Runs(Start(before), es) && Enabled(After(Start(before), es), e)
    requires var s := After(Start(before), es);
             s.writer != Exited && Apply(s, e).writer == Exited
    ensures After(Start(before), es).stop
    ensures After(Start(before), es).text == before + Print(After(Start(before), es).history)
  {
    StartInvariant(before);
    NothingLostNothingReordered(before, Start(before), es);
    var s := After(Start(before), es);
    assert s.written == Order(s);
  }

  /** With a record written after the writer has left, the file falls behind for good. */
  lemma LateRecordsStayQueued(before: string, s: State, es: seq<Event>)
    requires Invariant(before, s) && Runs(s, es) && s.writer == Exited
    ensures After(s, es).writer == Exited && After(s, es).text == s.text
    ensures s.queue <= After(s, es).queue
    decreases |es|
  {
    if es != [] {
      StepKeepsInvariant(before, s, es[0]);
      LateRecordsStayQueued(before, Apply(s, es[0]), es[1..]);
    }
  }

  // Draining.

  function Work(s: State): nat {
    match s.writer
    case Exited => 0
    case InHand(_) => 2 * |s.queue| + 2
    case _ => 2 * |s.queue| + 1
  }

  function WriterSteps(es: seq<Event>): nat {
    if es == [] then 0 else (if es[0] in {Test, Put} then 1 else 0) + WriterSteps(es[1..])
  }

  /** After the stop request, and with no further writes, the writer needs exactly Work(s) steps until
      it leaves, can always take the next one, and leaves the whole history in the file. */
  lemma {:induction false} StoppedWriterDrains(before: string, s: State, es: seq<Event>)
    requires Invariant(before, s) && s.stop && (s.writer == Exited ==> s.queue == [])
    requires Runs(s, es) && forall e | e in es :: !e.Push?
    ensures WriterSteps(es) + Work(After(s, es)) == Work(s)
    ensures var t := After(s, es);
            if t.writer == Exited then t.text == before + Print(s.history) else Enabled(t, Test) || Enabled(t, Put)
    decreases |es|
  {
    if es == [] {
      assert s.writer == Exited ==> s.written == Order(s);
    } else {
      StepKeepsInvariant(before, s, es[0]);
      StoppedWriterDrains(before, Apply(s, es[0]), es[1..]);
    }
  }

  /** A stop request at any point of a run raises the flag for good. */
  lemma {:induction false} StopRaisesFlag(s: State, es: seq<Event>)
    requires Runs(s, es) && (s.stop || Stop in es)
    ensures After(s, es).stop
    decreases |es|
  {
    if es != [] {
      assert Stop in es ==> es[0] == Stop || Stop in es[1..];
      StopRaisesFlag(Apply(s, es[0]), es[1..]);
    }
  }

  lemma {:induction false} RunsConcat(s: State, es: seq<Event>, fs: seq<Event>)
    requires Runs(s, es) && Runs(After(s, es), fs)
    ensures Runs(s, es + fs) && After(s, es + fs) == After(After(s, es), fs)
    decreases |es|
  {
    if es == [] {
      assert es + fs == fs;
    } else {
      assert (es + fs)[1..] == es[1..] + fs;
      RunsConcat(Apply(s, es[0]), es[1..], fs);
    }
  }

  /** With the flag up, the writer can get to its end on its own, with everything written by then in the file. */
  lemma {:induction false} WriterFinishes(before: string, s: State) returns (fs: seq<Event>)
    requires Invariant(before, s) && s.stop && s.writer != Exited
    ensures Runs(s, fs) && (forall f | f in fs :: f == Test || f == Put) && |fs| == Work(s)
    ensures After(s, fs).writer == Exited && After(s, fs).text == before + Print(s.history)
    decreases Work(s)
  {
    var e := if s.writer.InHand? then Put else Test;
    var t := Apply(s, e);
    StepKeepsInvariant(before, s, e);
    if t.writer == Exited {
      fs := [e];
      assert After(t, []) == t && s.written == Order(s);
    } else {
      var rest := WriterFinishes(before, t);
      fs := [e] + rest;
      assert fs[1..] == rest;
    }
  }

  /** So after any run with a stop request in it, from the start, the writer has left or can go on to leave with every
      record written so far in the file: the destructor's join returns. */
  lemma StopLetsWriterFinish(before: string, es: seq<Event>) returns (fs: seq<Event>)
    requires Runs(Start(before), es) && Stop in es && After(Start(before), es).writer != Exited
    ensures Runs(Start(before), es + fs) && forall f | f in fs :: f == Test || f == Put
    ensures var t := After(Start(before), es + fs);
            t.writer == Exited && t.text == before + Print(After(Start(before), es).history)
  {
    StartInvariant(before);
    NothingLostNothingReordered(before, Start(before), es);
    StopRaisesFlag(Start(before), es);
    fs := WriterFinishes(before, After(Start(before), es));
    RunsConcat(Start(before), es, fs);
  }

  /** A producer can write at any time. After the writer has left, what it writes never gets into the file. */
  lemma LateRecordIsLost(before: string, s: State, rec: CdrRecord, es: seq<Event>)
    requires Invariant(before, s) && Runs(s, [Push(rec)] + es) && s.writer == Exited
    ensures Enabled(s, Push(rec)) && After(s, [Push(rec)] + es).text == s.text
    ensures rec in After(s, [Push(rec)] + es).queue
  {
    var t := Apply(s, Push(rec));
    assert ([Push(rec)] + es)[1..] == es && rec == t.queue[|t.queue| - 1];
    StepKeepsInvariant(before, s, Push(rec));
    LateRecordsStayQueued(before, t, es);
    assert After(t, es).queue[|t.queue| - 1] == rec;
  }
}
