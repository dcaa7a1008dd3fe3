/** The CDR file: its lines, how they read back, and the writer object. */
module CdrLog {

  datatype CdrRecord = CdrRecord(timestamp: string, imsi: string, action: string)

  function Line(r: CdrRecord): string {
    r.timestamp + "," + r.imsi + "," + r.action + "\n"
  }

  /** A known line. */
  lemma KnownLine()
    ensures Line(CdrRecord("2025-07-27 12:00:00", "1234567890", "created")) ==
            "2025-07-27 12:00:00,1234567890,created\n"
  {
  }

  function Print(rs: seq<CdrRecord>): string {
    if rs == [] then "" else Line(rs[0]) + Print(rs[1..])
  }

  lemma {:induction false} PrintAppend(rs: seq<CdrRecord>, r: CdrRecord)
    ensures Print(rs + [r]) == Print(rs) + Line(r)
  {
    if rs == [] {
      assert Print([r][1..]) == "";
    } else {
      PrintAppend(rs[1..], r);
      assert (rs + [r])[1..] == rs[1..] + [r];
      LineConcat(rs[0], Print(rs[1..]), Line(r));
    }
  }

  lemma LineConcat(r: CdrRecord, a: string, b: string)
    ensures Line(r) + (a + b) == Line(r) + a + b
  {
  }

  // Reading the file back: split it into lines, and the lines into fields.

  function Split(s: string, sep: char): (parts: seq<string>)
    ensures parts != [] && forall p | p in parts :: sep !in p
  {
    if s == "" then [""]
    else
      var rest := Split(s[1..], sep);
      if s[0] == sep then [""] + rest else [[s[0]] + rest[0]] + rest[1..]
  }

  lemma {:induction false} SplitWithout(a: string, sep: char)
    requires sep !in a
    ensures Split(a, sep) == [a]
  {
    if a != "" {
      SplitWithout(a[1..], sep);
      assert a == [a[0]] + a[1..];
    }
  }

  lemma {:induction false} SplitFirst(a: string, sep: char, b: string)
    requires sep !in a
    ensures Split(a + [sep] + b, sep) == [a] + Split(b, sep)
  {
    var s := a + [sep] + b;
    if a == "" {
      assert s[1..] == b;
    } else {
      SplitFirst(a[1..], sep, b);
      assert s[1..] == a[1..] + [sep] + b;
      assert a == [a[0]] + a[1..];
    }
  }

  function FieldsOf(lines: seq<string>): (fields: seq<seq<string>>)
    ensures |fields| == |lines|
    ensures forall i | 0 <= i < |lines| :: fields[i] == Split(lines[i], ',')
  {
    seq(|lines|, i requires 0 <= i < |lines| => Split(lines[i], ','))
  }

  /** What a reader of the file sees: the fields of each finished line. */
  function ReadBack(text: string): seq<seq<string>> {
    var lines := Split(text, '\n');
    FieldsOf(lines[..|lines| - 1])
  }

  function Columns(r: CdrRecord): seq<string> {
    [r.timestamp, r.imsi, r.action]
  }

  function AllColumns(rs: seq<CdrRecord>): (cs: seq<seq<string>>)
    ensures |cs| == |rs| && forall i | 0 <= i < |rs| :: cs[i] == Columns(rs[i])
  {
    seq(|rs|, i requires 0 <= i < |rs| => Columns(rs[i]))
  }

  predicate Plain(field: string) {
    ',' !in field && '\n' !in field
  }

  predicate PlainRecord(r: CdrRecord) {
    Plain(r.timestamp) && Plain(r.imsi) && Plain(r.action)
  }

  lemma LineFields(r: CdrRecord)
    requires PlainRecord(r)
    ensures var line := r.timestamp + "," + r.imsi + "," + r.action;
            '\n' !in line && Split(line, ',') == Columns(r)
  {
    var line := r.timestamp + "," + r.imsi + "," + r.action;
    assert line == r.timestamp + [','] + (r.imsi + [','] + r.action);
    SplitFirst(r.timestamp, ',', r.imsi + [','] + r.action);
    SplitFirst(r.imsi, ',', r.action);
    SplitWithout(r.action, ',');
  }

  lemma ReadBackFirst(line: string, rest: string)
    requires '\n' !in line
    ensures ReadBack(line + ['\n'] + rest) == [Split(line, ',')] + ReadBack(rest)
  {
    SplitFirst(line, '\n', rest);
    var lines := Split(rest, '\n');
    assert ([line] + lines)[..|lines|] == [line] + lines[..|lines| - 1];
  }

  lemma {:induction false} PlainFilesReadBack(rs: seq<CdrRecord>)
    requires forall r | r in rs :: PlainRecord(r)
    ensures ReadBack(Print(rs)) == AllColumns(rs)
  {
    if rs == [] {
      assert Split("", '\n') == [""];
    } else {
      var r := rs[0];
      LineFields(r);
      PlainFilesReadBack(rs[1..]);
      ReadBackFirst(r.timestamp + "," + r.imsi + "," + r.action, Print(rs[1..]));
      assert AllColumns(rs) == [Columns(r)] + AllColumns(rs[1..]);
    }
  }

  lemma {:induction false} PartsKeepCharacters(s: string, sep: char, p: string)
    requires p in Split(s, sep)
    ensures forall c | c in p :: c in s
  {
    if s != "" {
      var rest := Split(s[1..], sep);
      if p in rest {
        PartsKeepCharacters(s[1..], sep, p);
      } else if p != "" && p[1..] == rest[0] {
        PartsKeepCharacters(s[1..], sep, rest[0]);
        assert p == [p[0]] + p[1..];
      }
    }
  }

  /** The file reads back as the records written to it exactly when no field holds a separator. */
  lemma ReadsBackExactly(rs: seq<CdrRecord>)
    ensures ReadBack(Print(rs)) == AllColumns(rs) <==> forall r | r in rs :: PlainRecord(r)
  {
    if forall r | r in rs :: PlainRecord(r) {
      PlainFilesReadBack(rs);
    } else if ReadBack(Print(rs)) == AllColumns(rs) {
      var lines := Split(Print(rs), '\n');
      forall i | 0 <= i < |rs|
        ensures PlainRecord(rs[i])
      {
        assert Columns(rs[i]) == Split(lines[i], ',');
        forall p | p in Columns(rs[i])
          ensures Plain(p)
        {
          PartsKeepCharacters(lines[i], ',', p);
        }
        assert rs[i].timestamp in Columns(rs[i]) && rs[i].imsi in Columns(rs[i]) && rs[i].action in Columns(rs[i]);
      }
    }
  }

  /** Two plain logs never make the same file. */
  lemma UniquelyParseable(rs: seq<CdrRecord>, ts: seq<CdrRecord>)
    requires forall r | r in rs + ts :: PlainRecord(r)
    requires Print(rs) == Print(ts)
    ensures rs == ts
  {
    assert forall r | r in rs :: r in rs + ts;
    assert forall r | r in ts :: r in rs + ts;
    PlainFilesReadBack(rs);
    PlainFilesReadBack(ts);
    assert |rs| == |AllColumns(rs)| == |ts|;
    forall i | 0 <= i < |rs|
      ensures rs[i] == ts[i]
    {
      assert Columns(rs[i]) == Columns(ts[i]);
      assert Columns(rs[i])[0] == rs[i].timestamp && Columns(rs[i])[1] == rs[i].imsi;
      assert Columns(ts[i])[0] == ts[i].timestamp && Columns(ts[i])[1] == ts[i].imsi;
      assert Columns(rs[i])[2] == rs[i].action && Columns(ts[i])[2] == ts[i].action;
    }
  }

  /** The writer object, run by one thread at a time; the module CdrQueue interleaves it. */
  class CdrWriter {
    var queue: seq<CdrRecord>
    var stop: bool
    var text: string

    /** Every record ever passed to Write, and those of them that are in the file, in order. */
    ghost var history: seq<CdrRecord>
    ghost var written: seq<CdrRecord>
    ghost const before: string

    ghost predicate Valid()
      reads this
    {
      text == before + Print(written) && written + queue == history
    }

    /** The file is opened for appending, so what it held stays in front. */
    constructor (existing: string)
      ensures Valid() && queue == [] && !stop && history == [] && text == before == existing
    {
      queue := [];
      stop := false;
      text := existing;
      history := [];
      written := [];
      before := existing;
    }

    method Write(rec: CdrRecord)
      requires Valid()
      modifies this
      ensures Valid()
      ensures queue == old(queue) + [rec] && history == old(history) + [rec]
      ensures text == old(text) && stop == old(stop)
    {
      queue := queue + [rec];
      history := history + [rec];
    }

    /** One turn of the writer loop that finds a record. */
    method PutNext()
      requires Valid() && queue != []
      modifies this`queue, this`text, this`written
      ensures Valid() && queue == old(queue)[1..]
      ensures text == old(text) + Line(old(queue)[0])
    {
      var rec := queue[0];
      PrintAppend(written, rec);
      queue := queue[1..];
      written := written + [rec];
      text := text + Line(rec);
    }

    /** The destructor: raise the flag, then let the writer loop run until it stops. */
    method Close()
      requires Valid()
      modifies this
      ensures Valid() && stop && queue == []
      ensures text == before + Print(old(history)) && history == old(history)
    {
      stop := true;
      while true
        invariant Valid() && stop && history == old(history)
        decreases |queue|
      {
        if stop && queue == [] {
          break;
        }
        PutNext();
      }
      assert written == history;
    }
  }
}
