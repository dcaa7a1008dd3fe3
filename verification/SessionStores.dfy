/** The two session stores, each against one abstract table keyed by IMSI. */
module SessionStores {
  import opened TextOrder

  datatype StoredSession = StoredSession(imsi: string, createdAt: string, expiresAt: string)

  type Table = map<string, StoredSession>

  datatype StoreKind = InMemory | Sqlite

  /** Every session is filed under its own IMSI. */
  predicate Keyed(m: Table) {
    forall k | k in m :: m[k].imsi == k
  }

  predicate ActiveAt(s: StoredSession, now: string) {
    Less(now, s.expiresAt)
  }

  /** The stores disagree about a session that expires right now. */
  predicate ExpiredAt(kind: StoreKind, s: StoredSession, now: string) {
    match kind
    case InMemory => Less(s.expiresAt, now)
    case Sqlite => !Less(now, s.expiresAt)
  }

  function ActiveRows(m: Table, now: string): Table {
    map k | k in m && ActiveAt(m[k], now) :: m[k]
  }

  function ExpiredRows(kind: StoreKind, m: Table, now: string): Table {
    map k | k in m && ExpiredAt(kind, m[k], now) :: m[k]
  }

  function UnexpiredRows(kind: StoreKind, m: Table, now: string): Table {
    map k | k in m && !ExpiredAt(kind, m[k], now) :: m[k]
  }

  /** `out` names each session of `m` once, in some order. */
  predicate Lists(out: seq<StoredSession>, m: Table) {
    && (forall i | 0 <= i < |out| :: out[i].imsi in m && m[out[i].imsi] == out[i])
    && (forall i, j | 0 <= i < j < |out| :: out[i].imsi != out[j].imsi)
    && (forall k | k in m :: m[k] in out)
  }

  lemma ListsAllButLast(out: seq<StoredSession>, m: Table)
    requires Lists(out, m) && Keyed(m) && out != []
    ensures var last := out[|out| - 1].imsi;
            last in m && Lists(out[..|out| - 1], m - {last})
  {
    var last, init := out[|out| - 1].imsi, out[..|out| - 1];
    forall k | k in m - {last}
      ensures m[k] in init
    {
      var i :| 0 <= i < |out| && out[i] == m[k];
      assert i < |init| && init[i] == m[k];
    }
  }

  lemma {:induction false} ListsLength(out: seq<StoredSession>, m: Table)
    requires Lists(out, m) && Keyed(m)
    ensures |out| == |m|
  {
    if out == [] {
      assert forall k :: k !in m;
    } else {
      var last := out[|out| - 1].imsi;
      ListsAllButLast(out, m);
      ListsLength(out[..|out| - 1], m - {last});
      assert m.Keys == (m - {last}).Keys + {last};
    }
  }

  /** SQLite sorts every row into exactly one of active and expired. */
  lemma SqlitePartition(m: Table, now: string)
    ensures ActiveRows(m, now).Keys !! ExpiredRows(Sqlite, m, now).Keys
    ensures ActiveRows(m, now) + ExpiredRows(Sqlite, m, now) == m
    ensures UnexpiredRows(Sqlite, m, now) == ActiveRows(m, now)
  {
  }

  /** The in-memory store leaves out of both lists exactly the sessions that expire right now,
      and its cleanup keeps them. */
  lemma InMemoryGap(m: Table, now: string)
    ensures forall k | k in m ::
              k !in ActiveRows(m, now) && k !in ExpiredRows(InMemory, m, now) <==> m[k].expiresAt == now
    ensures ActiveRows(m, now).Keys !! ExpiredRows(InMemory, m, now).Keys
    ensures forall k :: k in UnexpiredRows(InMemory, m, now) <==>
              k in ActiveRows(m, now) || (k in m && m[k].expiresAt == now)
  {
    forall k | k in m
      ensures ActiveAt(m[k], now) || ExpiredAt(InMemory, m[k], now) || m[k].expiresAt == now
      ensures !(ActiveAt(m[k], now) && ExpiredAt(InMemory, m[k], now))
      ensures m[k].expiresAt == now ==> !ActiveAt(m[k], now) && !ExpiredAt(InMemory, m[k], now)
    {
      LessTotal(m[k].expiresAt, now);
      if ActiveAt(m[k], now) {
        LessAsymmetric(now, m[k].expiresAt);
      }
      LessIrreflexive(now);
    }
  }

  class InMemorySessionStore {
    var sessions: Table

    constructor ()
      ensures sessions == map[]
    {
      sessions := map[];
    }

    method LoadSessions(now: string) returns (out: seq<StoredSession>)
      requires Keyed(sessions)
      ensures Lists(out, ActiveRows(sessions, now))
    {
      out := [];
      var todo := sessions.Keys;
      ghost var seen: Table := map[];
      while todo != {}
        invariant todo <= sessions.Keys
        invariant seen == map k | k in sessions && k !in todo && ActiveAt(sessions[k], now) :: sessions[k]
        invariant Lists(out, seen)
      {
        var k :| k in todo;
        if Less(now, sessions[k].expiresAt) {
          out := out + [sessions[k]];
          seen := seen[k := sessions[k]];
        }
        todo := todo - {k};
      }
      assert seen == ActiveRows(sessions, now);
    }

    method SaveSession(s: StoredSession) returns (ok: bool)
      modifies this
      ensures ok
      ensures sessions == old(sessions)[s.imsi := s]
      ensures old(Keyed(sessions)) ==> Keyed(sessions)
    {
      sessions := sessions[s.imsi := s];
      ok := true;
    }

    method DeleteSession(imsi: string) returns (ok: bool)
      modifies this
      ensures ok <==> imsi in old(sessions)
      ensures sessions == old(sessions) - {imsi}
      ensures old(Keyed(sessions)) ==> Keyed(sessions)
    {
      ok := imsi in sessions;
      sessions := sessions - {imsi};
    }

    method SessionExists(imsi: string) returns (exists_: bool)
      ensures exists_ <==> imsi in sessions
    {
      exists_ := imsi in sessions;
    }

    method CleanupExpiredSessions(now: string)
      modifies this
      ensures sessions == UnexpiredRows(InMemory, old(sessions), now)
      ensures old(Keyed(sessions)) ==> Keyed(sessions)
    {
      var todo := sessions.Keys;
      while todo != {}
        invariant todo <= old(sessions).Keys
        invariant sessions ==
                  map k | k in old(sessions) && (k in todo || !ExpiredAt(InMemory, old(sessions)[k], now)) ::
                    old(sessions)[k]
      {
        var k :| k in todo;
        if Less(sessions[k].expiresAt, now) {
          sessions := sessions - {k};
        }
        todo := todo - {k};
      }
    }

    method LoadExpiredSessions(now: string) returns (expired: seq<StoredSession>)
      requires Keyed(sessions)
      ensures Lists(expired, ExpiredRows(InMemory, sessions, now))
    {
      expired := [];
      var todo := sessions.Keys;
      ghost var seen: Table := map[];
      while todo != {}
        invariant todo <= sessions.Keys
        invariant seen == map k | k in sessions && k !in todo && ExpiredAt(InMemory, sessions[k], now) :: sessions[k]
        invariant Lists(expired, seen)
      {
        var k :| k in todo;
        if Less(sessions[k].expiresAt, now) {
          expired := expired + [sessions[k]];
          seen := seen[k := sessions[k]];
        }
        todo := todo - {k};
      }
      assert seen == ExpiredRows(InMemory, sessions, now);
    }
  }

  // Rows of the SQL table. `imsi` is its primary key.

  predicate UniqueKeys(rows: seq<StoredSession>) {
    forall i, j | 0 <= i < j < |rows| :: rows[i].imsi != rows[j].imsi
  }

  function TableOf(rows: seq<StoredSession>): Table {
    if rows == [] then map[] else TableOf(rows[..|rows| - 1])[rows[|rows| - 1].imsi := rows[|rows| - 1]]
  }

  lemma {:induction false} TableHoldsRows(rows: seq<StoredSession>)
    ensures Keyed(TableOf(rows))
    ensures forall k | k in TableOf(rows) :: TableOf(rows)[k] in rows
  {
    if rows != [] {
      TableHoldsRows(rows[..|rows| - 1]);
    }
  }

  lemma {:induction false} EveryRowIsInTable(rows: seq<StoredSession>, i: nat)
    requires UniqueKeys(rows) && i < |rows|
    ensures rows[i].imsi in TableOf(rows) && TableOf(rows)[rows[i].imsi] == rows[i]
  {
    if i < |rows| - 1 {
      EveryRowIsInTable(rows[..|rows| - 1], i);
    }
  }

  lemma RowsListTheirTable(rows: seq<StoredSession>)
    requires UniqueKeys(rows)
    ensures Keyed(TableOf(rows)) && Lists(rows, TableOf(rows))
  {
    TableHoldsRows(rows);
    forall i | 0 <= i < |rows|
      ensures rows[i].imsi in TableOf(rows) && TableOf(rows)[rows[i].imsi] == rows[i]
    {
      EveryRowIsInTable(rows, i);
    }
  }

  /** A unique list of the sessions of a table determines the table. */
  lemma ListDeterminesTable(rows: seq<StoredSession>, m: Table)
    requires Lists(rows, m) && Keyed(m)
    ensures TableOf(rows) == m
  {
    RowsListTheirTable(rows);
    assert forall k | k in m :: m[k] in rows;
    assert forall k | k in TableOf(rows) :: TableOf(rows)[k] in rows;
  }

  /** The WHERE clauses of the statements. */
  datatype Condition =
    | ExpiresAfter(now: string)
    | ExpiresBy(now: string)
    | KeyIs(imsi: string)
  {
    predicate Holds(r: StoredSession) {
      match this
      case ExpiresAfter(now) => Less(now, r.expiresAt)
      case ExpiresBy(now) => !Less(now, r.expiresAt)
      case KeyIs(imsi) => r.imsi == imsi
    }
  }

  /** The rows that meet a condition (what SELECT returns), or those that do not (what DELETE leaves),
      in table order. */
  function Where(rows: seq<StoredSession>, c: Condition, meets: bool): (kept: seq<StoredSession>)
    ensures forall r :: r in kept <==> r in rows && c.Holds(r) == meets
  {
    if rows == [] then []
    else
      var last := rows[|rows| - 1];
      Where(rows[..|rows| - 1], c, meets) + (if c.Holds(last) == meets then [last] else [])
  }

  function WhereTable(m: Table, c: Condition, meets: bool): Table {
    map k | k in m && c.Holds(m[k]) == meets :: m[k]
  }

  lemma WhereOtherKeys(m: Table, imsi: string)
    requires Keyed(m)
    ensures WhereTable(m, KeyIs(imsi), false) == m - {imsi}
  {
  }

  lemma {:induction false} WhereKeepsKeysUnique(rows: seq<StoredSession>, c: Condition, meets: bool)
    requires UniqueKeys(rows)
    ensures UniqueKeys(Where(rows, c, meets))
  {
    if rows != [] {
      var init, last := rows[..|rows| - 1], rows[|rows| - 1];
      WhereKeepsKeysUnique(init, c, meets);
      var kept := Where(init, c, meets);
      forall i | 0 <= i < |kept|
        ensures kept[i].imsi != last.imsi
      {
        assert kept[i] in init;
      }
    }
  }

  lemma WhereListsWhereTable(rows: seq<StoredSession>, c: Condition, meets: bool)
    requires UniqueKeys(rows)
    ensures UniqueKeys(Where(rows, c, meets))
    ensures Lists(Where(rows, c, meets), WhereTable(TableOf(rows), c, meets))
    ensures TableOf(Where(rows, c, meets)) == WhereTable(TableOf(rows), c, meets)
  {
    WhereKeepsKeysUnique(rows, c, meets);
    RowsListTheirTable(rows);
    var kept := Where(rows, c, meets);
    assert forall i | 0 <= i < |kept| :: kept[i] in rows && c.Holds(kept[i]) == meets;
    ListDeterminesTable(kept, WhereTable(TableOf(rows), c, meets));
  }

  lemma AppendRow(rows: seq<StoredSession>, s: StoredSession)
    requires UniqueKeys(rows) && s.imsi !in TableOf(rows)
    ensures UniqueKeys(rows + [s]) && TableOf(rows + [s]) == TableOf(rows)[s.imsi := s]
  {
    assert UniqueKeys(rows + [s]) by {
      RowsListTheirTable(rows);
      assert forall i | 0 <= i < |rows| :: rows[i].imsi in TableOf(rows);
    }
    assert (rows + [s])[..|rows|] == rows;
  }

  /** REPLACE INTO: the row with this key goes, the new row comes. */
  function Replaced(rows: seq<StoredSession>, s: StoredSession): seq<StoredSession> {
    Where(rows, KeyIs(s.imsi), false) + [s]
  }

  lemma ReplaceUpdatesTable(rows: seq<StoredSession>, s: StoredSession)
    requires UniqueKeys(rows)
    ensures UniqueKeys(Replaced(rows, s)) && TableOf(Replaced(rows, s)) == TableOf(rows)[s.imsi := s]
  {
    var kept := Where(rows, KeyIs(s.imsi), false);
    assert UniqueKeys(kept) && TableOf(kept) == TableOf(rows) - {s.imsi} by {
      WhereListsWhereTable(rows, KeyIs(s.imsi), false);
      RowsListTheirTable(rows);
      WhereOtherKeys(TableOf(rows), s.imsi);
    }
    AppendRow(kept, s);
    assert (TableOf(rows) - {s.imsi})[s.imsi := s] == TableOf(rows)[s.imsi := s];
  }

  class SqliteSessionStore {
    var rows: seq<StoredSession>

    ghost predicate Valid()
      reads this
    {
      UniqueKeys(rows)
    }

    function Contents(): Table
      reads this
    {
      TableOf(rows)
    }

    constructor (stored: seq<StoredSession>)
      requires UniqueKeys(stored)
      ensures Valid() && Contents() == TableOf(stored)
    {
      rows := stored;
    }

    method LoadSessions(now: string) returns (result: seq<StoredSession>)
      requires Valid()
      ensures Lists(result, ActiveRows(Contents(), now))
    {
      result := [];
      var step := 0;
      while step < |rows|
        invariant 0 <= step <= |rows|
        invariant result == Where(rows[..step], ExpiresAfter(now), true)
      {
        assert rows[..step + 1][..step] == rows[..step];
        if Less(now, rows[step].expiresAt) {
          result := result + [rows[step]];
        }
        step := step + 1;
      }
      assert rows[..step] == rows;
      WhereListsWhereTable(rows, ExpiresAfter(now), true);
      assert WhereTable(Contents(), ExpiresAfter(now), true) == ActiveRows(Contents(), now);
    }

    method SaveSession(s: StoredSession) returns (ok: bool)
      requires Valid()
      modifies this
      ensures Valid() && ok
      ensures Contents() == old(Contents())[s.imsi := s]
    {
      ReplaceUpdatesTable(rows, s);
      rows := Replaced(rows, s);
      ok := true;
    }

    method DeleteSession(imsi: string) returns (ok: bool)
      requires Valid()
      modifies this
      ensures Valid() && ok
      ensures Contents() == old(Contents()) - {imsi}
    {
      WhereListsWhereTable(rows, KeyIs(imsi), false);
      RowsListTheirTable(rows);
      WhereOtherKeys(Contents(), imsi);
      rows := Where(rows, KeyIs(imsi), false);
      ok := true;
    }

    method SessionExists(imsi: string) returns (exists_: bool)
      requires Valid()
      ensures exists_ <==> imsi in Contents()
    {
      var found := Where(rows, KeyIs(imsi), true);
      exists_ := found != [];
      RowsListTheirTable(rows);
      WhereListsWhereTable(rows, KeyIs(imsi), true);
      assert exists_ ==> found[0].imsi in WhereTable(Contents(), KeyIs(imsi), true);
      assert imsi in Contents() ==> imsi in WhereTable(Contents(), KeyIs(imsi), true);
    }

    method CleanupExpiredSessions(now: string)
      requires Valid()
      modifies this
      ensures Valid()
      ensures Contents() == UnexpiredRows(Sqlite, old(Contents()), now)
    {
      WhereListsWhereTable(rows, ExpiresBy(now), false);
      assert WhereTable(Contents(), ExpiresBy(now), false) == UnexpiredRows(Sqlite, Contents(), now);
      rows := Where(rows, ExpiresBy(now), false);
    }

    method LoadExpiredSessions(now: string) returns (result: seq<StoredSession>)
      requires Valid()
      ensures Lists(result, ExpiredRows(Sqlite, Contents(), now))
    {
      result := [];
      var step := 0;
      while step < |rows|
        invariant 0 <= step <= |rows|
        invariant result == Where(rows[..step], ExpiresBy(now), true)
      {
        assert rows[..step + 1][..step] == rows[..step];
        if !Less(now, rows[step].expiresAt) {
          result := result + [rows[step]];
        }
        step := step + 1;
      }
      assert rows[..step] == rows;
      WhereListsWhereTable(rows, ExpiresBy(now), true);
      assert WhereTable(Contents(), ExpiresBy(now), true) == ExpiredRows(Sqlite, Contents(), now);
    }
  }

  /** A session store of either class; its methods dispatch as the virtual calls do. */
  datatype SessionStore =
    | Memory(memory: InMemorySessionStore)
    | Database(database: SqliteSessionStore)
  {
    function Obj(): object {
      match this
      case Memory(m) => m
      case Database(d) => d
    }

    function Kind(): StoreKind {
      if Memory? then InMemory else Sqlite
    }

    ghost predicate Valid()
      reads Obj()
    {
      match this
      case Memory(m) => Keyed(m.sessions)
      case Database(d) => d.Valid()
    }

    function Contents(): Table
      reads Obj()
    {
      match this
      case Memory(m) => m.sessions
      case Database(d) => d.Contents()
    }

    lemma ValidIsKeyed()
      requires Valid()
      ensures Keyed(Contents())
    {
      if Database? {
        RowsListTheirTable(database.rows);
      }
    }

    method LoadSessions(now: string) returns (out: seq<StoredSession>)
      requires Valid()
      ensures Lists(out, ActiveRows(Contents(), now))
    {
      match this
      case Memory(m) => out := m.LoadSessions(now);
      case Database(d) => out := d.LoadSessions(now);
    }

    method SaveSession(s: StoredSession) returns (ok: bool)
      requires Valid()
      modifies Obj()
      ensures Valid() && ok
      ensures Contents() == old(Contents())[s.imsi := s]
    {
      match this
      case Memory(m) => ok := m.SaveSession(s);
      case Database(d) => ok := d.SaveSession(s);
    }

    /** The answers differ: memory tells whether there was such a session, SQLite whether the statement ran. */
    method DeleteSession(imsi: string) returns (ok: bool)
      requires Valid()
      modifies Obj()
      ensures Valid()
      ensures ok <==> Database? || imsi in old(Contents())
      ensures Contents() == old(Contents()) - {imsi}
    {
      match this
      case Memory(m) => ok := m.DeleteSession(imsi);
      case Database(d) => ok := d.DeleteSession(imsi);
    }

    method SessionExists(imsi: string) returns (exists_: bool)
      requires Valid()
      ensures exists_ <==> imsi in Contents()
    {
      match this
      case Memory(m) => exists_ := m.SessionExists(imsi);
      case Database(d) => exists_ := d.SessionExists(imsi);
    }

    method CleanupExpiredSessions(now: string)
      requires Valid()
      modifies Obj()
      ensures Valid()
      ensures Contents() == UnexpiredRows(Kind(), old(Contents()), now)
    {
      match this
      case Memory(m) => m.CleanupExpiredSessions(now);
      case Database(d) => d.CleanupExpiredSessions(now);
    }

    method LoadExpiredSessions(now: string) returns (out: seq<StoredSession>)
      requires Valid()
      ensures Lists(out, ExpiredRows(Kind(), Contents(), now))
    {
      match this
      case Memory(m) => out := m.LoadExpiredSessions(now);
      case Database(d) => out := d.LoadExpiredSessions(now);
    }
  }
}
