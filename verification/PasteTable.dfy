/** The pastes table and its statements (internal/store/postgres/pastes.go, the constraints of
    migrations/0001_init.sql, and the record of internal/paste/types.go). */
module PasteTable {
  import opened Base
  import opened Canonical

  datatype Row = Row(
    owner: Id, createdAt: int, expiresAt: int, ttlSeconds: int, sizeBytes: nat, hash: Digest,
    isProtected: bool, kekId: string, views: nat,
    auditedAt: Option<int>, deletedAt: Option<int>, deletedBy: Option<Id>)

  type Table = map<Id, Row>

  datatype Status = Active | Expired | Deleted | Unavailable

  /** PasteMeta.Status. */
  function StatusOf(m: Row, now: int): Status {
    if m.deletedAt.Some? then Deleted else if m.expiresAt <= now then Expired else Active
  }

  const TTL_MAX: int := 86400

  /** INSERT succeeds for a new primary key within the ttl_bounds check. */
  predicate Insertable(t: Table, id: Id, m: Row) {
    id !in t && 1 <= m.ttlSeconds <= TTL_MAX
  }

  /** A row as the table keeps it: instants lose the digits finer than its precision. */
  function Stored(g: Grain, m: Row): Row {
    m.(createdAt := Coarsen(g, m.createdAt), expiresAt := Coarsen(g, m.expiresAt))
  }

  function IncrementViews(t: Table, id: Id): Table {
    if id in t then t[id := t[id].(views := t[id].views + 1)] else t
  }

  function MarkDeleted(t: Table, id: Id, who: Id, at: int): Table {
    if id in t && t[id].deletedAt.None? then t[id := t[id].(deletedAt := Some(at), deletedBy := Some(who))] else t
  }

  function MarkRow(m: Row, marked: bool, at: int): Row {
    if marked && m.auditedAt.None? then m.(auditedAt := Some(at)) else m
  }

  function MarkExpiredAudited(t: Table, ids: seq<Id>, at: int): Table {
    map id | id in t :: MarkRow(t[id], id in ids, at)
  }

  /** Deleted, or expired and audited: nothing is left to do for the row. */
  predicate Completed(m: Row) {
    m.deletedAt.Some? || m.auditedAt.Some?
  }

  function PurgeOlderThan(t: Table, cutoff: int): Table {
    map id | id in t && !(t[id].createdAt < cutoff) :: t[id]
  }

  function PurgeCompletedOlderThan(t: Table, cutoff: int): Table {
    map id | id in t && !(t[id].createdAt < cutoff && Completed(t[id])) :: t[id]
  }

  // --- ListExpiredUnaudited ----------------------------------------------------------------

  predicate Pending(m: Row, now: int) {
    m.expiresAt <= now && !Completed(m)
  }

  function PendingIds(t: Table, now: int): set<Id> {
    set id | id in t && Pending(t[id], now)
  }

  /** ORDER BY expires_at ASC, id ASC. */
  predicate Sooner(t: Table, a: Id, b: Id)
    requires a in t && b in t
  {
    t[a].expiresAt < t[b].expiresAt || (t[a].expiresAt == t[b].expiresAt && a <= b)
  }

  predicate IsSoonest(t: Table, s: set<Id>, m: Id)
    requires s <= t.Keys
  {
    m in s && forall x :: x in s ==> Sooner(t, m, x)
  }

  lemma {:induction false} HasSoonest(t: Table, s: set<Id>)
    requires s != {} && s <= t.Keys
    ensures exists m :: IsSoonest(t, s, m)
    decreases |s|
  {
    var a :| a in s;
    if s == {a} {
      assert IsSoonest(t, s, a);
    } else {
      HasSoonest(t, s - {a});
      var b :| IsSoonest(t, s - {a}, b);
      var m := if Sooner(t, a, b) then a else b;
      forall x | x in s ensures Sooner(t, m, x) {
        assert x == a || x in s - {a};
      }
      assert IsSoonest(t, s, m);
    }
  }

  function Soonest(t: Table, s: set<Id>): (m: Id)
    requires s != {} && s <= t.Keys
    ensures IsSoonest(t, s, m)
  {
    HasSoonest(t, s);
    var m :| m in s && IsSoonest(t, s, m);
    m
  }

  /** The given rows in that order. */
  function Ordered(t: Table, s: set<Id>): (r: seq<Id>)
    requires s <= t.Keys
    ensures |r| == |s|
    decreases |s|
  {
    if s == {} then [] else
      var m := Soonest(t, s);
      [m] + Ordered(t, s - {m})
  }

  predicate Distinct(r: seq<Id>) {
    forall i, j :: 0 <= i < j < |r| ==> r[i] != r[j]
  }

  /** Each of the given rows appears exactly once. */
  lemma {:induction false} OrderedContents(t: Table, s: set<Id>)
    requires s <= t.Keys
    ensures Elements(Ordered(t, s)) == s && Distinct(Ordered(t, s))
    decreases |s|
  {
    if s != {} {
      var m := Soonest(t, s);
      var rest := Ordered(t, s - {m});
      OrderedContents(t, s - {m});
      ElementsCons(m, rest, [m] + rest);
      DistinctCons(m, rest);
    }
  }

  lemma DistinctCons(m: Id, rest: seq<Id>)
    requires m !in Elements(rest) && Distinct(rest)
    ensures Distinct([m] + rest)
  {
    forall i | 0 <= i < |rest| ensures rest[i] != m {
      assert rest[i] in Elements(rest);
    }
  }

  /** The rows come in order. */
  lemma {:induction false} OrderedIsSorted(t: Table, s: set<Id>, i: nat, j: nat)
    requires s <= t.Keys && i < j < |Ordered(t, s)|
    ensures Ordered(t, s)[i] in s && Ordered(t, s)[j] in s
    ensures Sooner(t, Ordered(t, s)[i], Ordered(t, s)[j])
    ensures t[Ordered(t, s)[i]].expiresAt <= t[Ordered(t, s)[j]].expiresAt
    decreases i
  {
    var m := Soonest(t, s);
    var rest := Ordered(t, s - {m});
    assert Ordered(t, s)[j] == rest[j - 1];
    if i == 0 {
      OrderedContents(t, s - {m});
      assert rest[j - 1] in Elements(rest);
    } else {
      assert Ordered(t, s)[i] == rest[i - 1];
      OrderedIsSorted(t, s - {m}, i - 1, j - 1);
    }
  }

  function PendingOrder(t: Table, now: int): (r: seq<Id>)
    ensures |r| == |PendingIds(t, now)|
  {
    Ordered(t, PendingIds(t, now))
  }

  function ListExpiredUnaudited(t: Table, now: int, limit: nat): (r: seq<Id>)
    ensures r <= PendingOrder(t, now)
    ensures |r| == if |PendingOrder(t, now)| < limit then |PendingOrder(t, now)| else limit
  {
    var all := PendingOrder(t, now);
    if |all| < limit then all else all[..limit]
  }

  function Elements(s: seq<Id>): set<Id> {
    set x | x in s
  }

  lemma ElementsCons(m: Id, s: seq<Id>, r: seq<Id>)
    requires r == [m] + s
    ensures Elements(r) == {m} + Elements(s)
  {
    assert m == r[0];
    forall x | x in s ensures x in r {
      var i :| 0 <= i < |s| && s[i] == x;
      assert r[i + 1] == x;
    }
  }

  /** Dropping the first `k` from the set drops the first `k` from the order. */
  lemma {:induction false} OrderedDrop(t: Table, s: set<Id>, k: nat)
    requires s <= t.Keys && k <= |s|
    ensures Ordered(t, s - Elements(Ordered(t, s)[..k])) == Ordered(t, s)[k..]
    decreases k
  {
    var r := Ordered(t, s);
    if k == 0 {
      assert s - Elements(r[..0]) == s;
    } else {
      var m := Soonest(t, s);
      var rest := Ordered(t, s - {m});
      assert r == [m] + rest;
      OrderedDrop(t, s - {m}, k - 1);
      assert r[..k] == [m] + rest[..k - 1];
      ElementsCons(m, rest[..k - 1], r[..k]);
      assert s - Elements(r[..k]) == s - {m} - Elements(rest[..k - 1]);
      assert r[k..] == rest[k - 1..];
    }
  }

  /** The order depends only on the expiries of the rows ordered. */
  lemma {:induction false} OrderedFrame(t: Table, u: Table, s: set<Id>)
    requires s <= t.Keys && s <= u.Keys
    requires forall x :: x in s ==> t[x].expiresAt == u[x].expiresAt
    ensures Ordered(t, s) == Ordered(u, s)
    decreases |s|
  {
    if s != {} {
      var m, n := Soonest(t, s), Soonest(u, s);
      assert Sooner(t, m, n) && Sooner(u, n, m);
      OrderedFrame(t, u, s - {m});
    }
  }
}
