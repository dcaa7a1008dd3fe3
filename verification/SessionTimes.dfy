/** Sessions and records over integer time, and what the two kinds of store call active and expired. */
module SessionTimes {
  import opened SessionStores

  datatype Session = Session(created: nat, expires: nat)

  type Sessions = map<string, Session>

  datatype Action = Created | Expired

  datatype Entry = Entry(at: nat, imsi: string, action: Action)

  function Active(store: Sessions, now: nat): Sessions {
    map k | k in store && now < store[k].expires :: store[k]
  }

  predicate IsExpired(kind: StoreKind, s: Session, now: nat) {
    match kind
    case InMemory => s.expires < now
    case Sqlite => s.expires <= now
  }

  function ExpiredPart(kind: StoreKind, store: Sessions, now: nat): Sessions {
    map k | k in store && IsExpired(kind, store[k], now) :: store[k]
  }

  function Unexpired(kind: StoreKind, store: Sessions, now: nat): Sessions {
    map k | k in store && !IsExpired(kind, store[k], now) :: store[k]
  }

  /** `order` names each of `keys` once. */
  predicate Enumerates(order: seq<string>, keys: set<string>) {
    && (forall k | k in order :: k in keys)
    && (forall k | k in keys :: k in order)
    && (forall i, j | 0 <= i < j < |order| :: order[i] != order[j])
  }

  lemma SmallerSubset(a: set<string>, b: set<string>)
    requires a < b
    ensures |a| < |b|
  {
    assert b == a + (b - a) && b - a != {};
  }
}
