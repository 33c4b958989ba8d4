/** One pass of the sweeper over the table as a whole, with no one else writing
    (internal/sweeper/sweeper.go, lines 93-141). */
module SweepPass {
  import opened Base
  import opened PasteTable

  /** `completedPurge` says whether the store offers the completed-only purge. */
  datatype SweepConfig = SweepConfig(batch: nat, retentionDays: int, completedPurge: bool)

  /** The listed rows whose body was deleted, in order. */
  function Handled(listed: seq<Id>, failing: set<Id>): seq<Id> {
    if listed == [] then []
    else (if listed[0] in failing then [] else [listed[0]]) + Handled(listed[1..], failing)
  }

  lemma {:induction false} HandledMembers(listed: seq<Id>, failing: set<Id>, id: Id)
    ensures id in Handled(listed, failing) <==> id in listed && id !in failing
  {
    if listed != [] {
      HandledMembers(listed[1..], failing, id);
      assert listed == [listed[0]] + listed[1..];
    }
  }

  /** A full batch or a failed body deletion leaves expiry work for a later pass. */
  predicate RetryPending(listed: seq<Id>, batch: nat, failing: set<Id>) {
    |listed| >= batch || exists x :: x in listed && x in failing
  }

  function Cutoff(now: int, days: int): int {
    now - days * DAY
  }

  /** What retention does to the table after the marks. */
  function Purged(t: Table, now: int, cfg: SweepConfig, retry: bool): Table {
    if cfg.retentionDays <= 0 then t
    else if cfg.completedPurge then PurgeCompletedOlderThan(t, Cutoff(now, cfg.retentionDays))
    else if !retry then PurgeOlderThan(t, Cutoff(now, cfg.retentionDays))
    else t
  }

  /** The table after a pass in which the bodies of `failing` could not be deleted. */
  function Pass(t: Table, now: int, cfg: SweepConfig, failing: set<Id>): Table {
    var listed := ListExpiredUnaudited(t, now, cfg.batch);
    Purged(MarkExpiredAudited(t, Handled(listed, failing), now), now, cfg, RetryPending(listed, cfg.batch, failing))
  }

  // --- The fallback purge ------------------------------------------------------------------

  /** Rows as Create builds them and the table admits them, to the table's precision. */
  predicate WellBuilt(t: Table) {
    forall id :: id in t ==>
      t[id].expiresAt == t[id].createdAt + t[id].ttlSeconds * SECOND && t[id].ttlSeconds <= TTL_MAX
  }

  lemma StoredIsWellBuilt(g: Grain, m: Row)
    requires m.expiresAt == m.createdAt + m.ttlSeconds * SECOND
    ensures Stored(g, m).expiresAt == Stored(g, m).createdAt + m.ttlSeconds * SECOND
  {
    CoarsenShift(g, m.createdAt, m.ttlSeconds);
  }

  /** A short list is the whole list. */
  lemma ShortListIsComplete(t: Table, now: int, batch: nat, id: Id)
    requires |ListExpiredUnaudited(t, now, batch)| < batch && id in t && Pending(t[id], now)
    ensures id in ListExpiredUnaudited(t, now, batch)
  {
    OrderedContents(t, PendingIds(t, now));
    assert id in Elements(PendingOrder(t, now));
  }

  /** Whenever the fallback purge runs, every row past the cutoff is completed, so it deletes
      exactly what the completed-only purge would. */
  lemma FallbackDeletesOnlyCompleted(t: Table, now: int, batch: nat, days: int, failing: set<Id>)
    requires WellBuilt(t) && days >= 1
    requires !RetryPending(ListExpiredUnaudited(t, now, batch), batch, failing)
    ensures var u := MarkExpiredAudited(t, Handled(ListExpiredUnaudited(t, now, batch), failing), now);
            PurgeOlderThan(u, Cutoff(now, days)) == PurgeCompletedOlderThan(u, Cutoff(now, days))
    ensures Pass(t, now, SweepConfig(batch, days, false), failing)
            == Pass(t, now, SweepConfig(batch, days, true), failing)
  {
    var listed := ListExpiredUnaudited(t, now, batch);
    var u := MarkExpiredAudited(t, Handled(listed, failing), now);
    forall id | id in u && u[id].createdAt < Cutoff(now, days) ensures Completed(u[id]) {
      assert t[id].expiresAt <= now by {
        assert t[id].ttlSeconds * SECOND <= DAY <= days * DAY;
      }
      if Pending(t[id], now) {
        ShortListIsComplete(t, now, batch, id);
        HandledMembers(listed, failing, id);
      }
    }
  }

  // --- Draining ----------------------------------------------------------------------------

  /** A table and the rows handled on the way to it. */
  datatype Progress = Progress(table: Table, handled: seq<Id>)

  /** One more pass. */
  function OneMore(p: Progress, now: int, cfg: SweepConfig, failing: set<Id>): Progress {
    var listed := ListExpiredUnaudited(p.table, now, cfg.batch);
    Progress(Pass(p.table, now, cfg, failing), p.handled + Handled(listed, failing))
  }

  /** `j` passes at one instant, in each of which the bodies of `failing` cannot be deleted. */
  function Passes(t: Table, now: int, cfg: SweepConfig, failing: set<Id>, j: nat): Progress
    decreases j
  {
    if j == 0 then Progress(t, []) else OneMore(Passes(t, now, cfg, failing, j - 1), now, cfg, failing)
  }

  lemma {:induction false} HandledAll(listed: seq<Id>)
    ensures Handled(listed, {}) == listed
  {
    if listed != [] {
      HandledAll(listed[1..]);
    }
  }

  /** Marking leaves exactly the unmarked rows pending. */
  lemma PendingAfterMark(t: Table, ids: seq<Id>, now: int)
    ensures PendingIds(MarkExpiredAudited(t, ids, now), now) == PendingIds(t, now) - Elements(ids)
  {
  }

  /** Retention never removes a pending row. */
  lemma PendingAfterPurge(t: Table, now: int, cfg: SweepConfig, retry: bool)
    requires !retry ==> PendingIds(t, now) == {}
    ensures PendingIds(Purged(t, now, cfg, retry), now) == PendingIds(t, now)
    ensures forall id :: id in PendingIds(t, now) ==>
              id in Purged(t, now, cfg, retry) && Purged(t, now, cfg, retry)[id] == t[id]
  {
    forall id | id in t && Pending(t[id], now) && retry
      ensures id in Purged(t, now, cfg, retry) && Purged(t, now, cfg, retry)[id] == t[id]
    {
    }
    if !retry {
      forall id | id in Purged(t, now, cfg, retry) ensures !Pending(Purged(t, now, cfg, retry)[id], now) {
        assert id in t && id !in PendingIds(t, now);
      }
    }
  }

  /** One pass takes the first `batch` rows off the front of the pending order. */
  lemma PassTakesPrefix(t: Table, now: int, cfg: SweepConfig)
    ensures var order := PendingOrder(t, now);
            var k := if |order| < cfg.batch then |order| else cfg.batch;
            PendingOrder(Pass(t, now, cfg, {}), now) == order[k..]
            && Handled(ListExpiredUnaudited(t, now, cfg.batch), {}) == order[..k]
  {
    var order, listed := PendingOrder(t, now), ListExpiredUnaudited(t, now, cfg.batch);
    var k := |listed|;
    HandledAll(listed);
    assert listed == order[..k];
    var pending := PendingIds(t, now);
    var u := MarkExpiredAudited(t, listed, now);
    var left := pending - Elements(listed);
    PendingAfterMark(t, listed, now);
    OrderedDrop(t, pending, k);
    assert Ordered(t, left) == order[k..];
    var retry := RetryPending(listed, cfg.batch, {});
    if !retry {
      assert |left| == |order[k..]| == 0;
    }
    PendingAfterPurge(u, now, cfg, retry);
    OrderedFrame(t, Purged(u, now, cfg, retry), left);
  }

  function Min(a: nat, b: nat): nat {
    if a < b then a else b
  }

  /** Taking up to `b` more after the first `m` of a list. */
  lemma TakeMore(order: seq<Id>, done: nat, b: nat)
    ensures var m, n := Min(done, |order|), Min(done + b, |order|);
            var rest := order[m..];
            var k := if |rest| < b then |rest| else b;
            rest[k..] == order[n..] && order[..m] + rest[..k] == order[..n]
  {
  }

  /** How many rows `j` full batches hold. */
  function Quota(j: nat, batch: nat): nat {
    if j == 0 then 0 else Quota(j - 1, batch) + batch
  }

  lemma {:induction false} QuotaIsProduct(j: nat, batch: nat)
    ensures Quota(j, batch) == j * batch
  {
    if j > 0 {
      QuotaIsProduct(j - 1, batch);
      assert j * batch == (j - 1) * batch + batch;
    }
  }

  lemma PassAdvances(t: Table, now: int, cfg: SweepConfig, order: seq<Id>, done: nat)
    requires PendingOrder(t, now) == order[Min(done, |order|)..]
    ensures PendingOrder(Pass(t, now, cfg, {}), now) == order[Min(done + cfg.batch, |order|)..]
    ensures order[..Min(done, |order|)] + Handled(ListExpiredUnaudited(t, now, cfg.batch), {})
         == order[..Min(done + cfg.batch, |order|)]
  {
    PassTakesPrefix(t, now, cfg);
    TakeMore(order, done, cfg.batch);
  }

  /** `done` rows of the order have been handled, in order, and the others are left. */
  predicate Drained(order: seq<Id>, done: nat, p: Progress, now: int) {
    var n := Min(done, |order|);
    PendingOrder(p.table, now) == order[n..] && p.handled == order[..n]
  }

  lemma {:induction false} DrainInOrder(t: Table, now: int, cfg: SweepConfig, j: nat)
    ensures Drained(PendingOrder(t, now), Quota(j, cfg.batch), Passes(t, now, cfg, {}, j), now)
    decreases j
  {
    var order := PendingOrder(t, now);
    if j == 0 {
      assert order[0..] == order && order[..0] == [];
    } else {
      DrainInOrder(t, now, cfg, j - 1);
      DrainStep(Passes(t, now, cfg, {}, j - 1), now, cfg, order, Quota(j - 1, cfg.batch));
    }
  }

  lemma DrainStep(p: Progress, now: int, cfg: SweepConfig, order: seq<Id>, done: nat)
    requires Drained(order, done, p, now)
    ensures Drained(order, done + cfg.batch, OneMore(p, now, cfg, {}), now)
  {
    PassAdvances(p.table, now, cfg, order, done);
  }

  lemma PrefixIsSorted(t: Table, now: int, n: nat)
    requires n <= |PendingOrder(t, now)|
    ensures Distinct(PendingOrder(t, now)[..n])
    ensures forall a, b :: 0 <= a < b < n ==> SoonerRows(t, PendingOrder(t, now)[a], PendingOrder(t, now)[b])
  {
    OrderedContents(t, PendingIds(t, now));
    forall a, b | 0 <= a < b < n ensures SoonerRows(t, PendingOrder(t, now)[a], PendingOrder(t, now)[b]) {
      OrderedIsSorted(t, PendingIds(t, now), a, b);
    }
  }

  predicate SoonerRows(t: Table, a: Id, b: Id) {
    a in t && b in t && Sooner(t, a, b)
  }

  /** After `j` passes with batch `b`, of the `k` rows that were pending exactly
      max(0, k - j*b) are left; the rows handled are the first min(j*b, k) in the order
      (expires_at, id), each once, and together they number that many. */
  lemma Drain(t: Table, now: int, cfg: SweepConfig, j: nat, k: nat, done: nat)
    requires k == |PendingIds(t, now)| && done == Min(j * cfg.batch, k)
    ensures |PendingIds(Passes(t, now, cfg, {}, j).table, now)| == k - done
    ensures Passes(t, now, cfg, {}, j).handled == PendingOrder(t, now)[..done]
    ensures Distinct(Passes(t, now, cfg, {}, j).handled)
    ensures var handled := Passes(t, now, cfg, {}, j).handled;
            forall a, b :: 0 <= a < b < done ==> SoonerRows(t, handled[a], handled[b])
  {
    QuotaIsProduct(j, cfg.batch);
    DrainInOrder(t, now, cfg, j);
    PrefixIsSorted(t, now, done);
  }

  /** A pass that takes at least one row leaves nothing pending after at most as many passes as
      rows were pending. */
  lemma PositiveBatchDrains(t: Table, now: int, cfg: SweepConfig, j: nat)
    requires cfg.batch >= 1 && j >= |PendingIds(t, now)|
    ensures PendingIds(Passes(t, now, cfg, {}, j).table, now) == {}
    ensures Passes(t, now, cfg, {}, j).handled == PendingOrder(t, now)
  {
    var k := |PendingIds(t, now)|;
    assert j * cfg.batch >= k by {
      QuotaGrows(j, cfg.batch);
      QuotaIsProduct(j, cfg.batch);
    }
    Drain(t, now, cfg, j, k, k);
    assert PendingOrder(t, now)[..k] == PendingOrder(t, now);
  }

  lemma {:induction false} QuotaGrows(j: nat, batch: nat)
    requires batch >= 1
    ensures Quota(j, batch) >= j
  {
    if j > 0 {
      QuotaGrows(j - 1, batch);
    }
  }

  // --- Rows whose bodies cannot be deleted -------------------------------------------------

  /** The given rows that come before the row `id` in the order. */
  function Ahead(t: Table, s: set<Id>, id: Id): set<Id>
    requires s <= t.Keys && id in t
  {
    set x | x in s && x != id && Sooner(t, x, id)
  }

  lemma {:induction false} DistinctCount(r: seq<Id>)
    requires Distinct(r)
    ensures |Elements(r)| == |r|
  {
    if r == [] {
      assert Elements(r) == {};
    } else {
      DistinctCount(r[1..]);
      ElementsCons(r[0], r[1..], r);
      assert r[0] !in Elements(r[1..]);
    }
  }

  /** What stands before a row in the list is what is ahead of it. */
  lemma AheadIsPrefix(t: Table, s: set<Id>, i: nat)
    requires s <= t.Keys && i < |Ordered(t, s)|
    ensures Ordered(t, s)[i] in s && Ahead(t, s, Ordered(t, s)[i]) == Elements(Ordered(t, s)[..i])
  {
    var order := Ordered(t, s);
    OrderedContents(t, s);
    assert order[i] in Elements(order);
    forall x | x in Ahead(t, s, order[i]) ensures x in order[..i] {
      assert x in Elements(order);
      var j :| 0 <= j < |order| && order[j] == x;
      if i < j {
        OrderedIsSorted(t, s, i, j);
      }
      assert order[..i][j] == x;
    }
    forall x | x in order[..i] ensures x in Ahead(t, s, order[i]) {
      var j :| 0 <= j < i && order[j] == x;
      OrderedIsSorted(t, s, j, i);
    }
  }

  /** A pending row is listed exactly when fewer than a batch of pending rows are ahead of it;
      otherwise the whole batch is ahead of it. */
  lemma ListedExactly(t: Table, now: int, batch: nat, id: Id)
    requires id in PendingIds(t, now)
    ensures var listed, ahead := ListExpiredUnaudited(t, now, batch), Ahead(t, PendingIds(t, now), id);
            && (id in listed <==> |ahead| < batch)
            && (id !in listed ==> Elements(listed) <= ahead && |Elements(listed)| == batch)
  {
    var s := PendingIds(t, now);
    var order, listed := PendingOrder(t, now), ListExpiredUnaudited(t, now, batch);
    OrderedContents(t, s);
    assert id in Elements(order);
    var i :| 0 <= i < |order| && order[i] == id;
    AheadIsPrefix(t, s, i);
    DistinctCount(order[..i]);
    DistinctCount(listed);
    assert listed == order[..|listed|];
    if i < |listed| {
      assert listed[i] == id;
    } else {
      assert forall x :: x in listed ==> x in order[..i];
    }
  }

  lemma ListedPending(t: Table, now: int, batch: nat)
    ensures Elements(ListExpiredUnaudited(t, now, batch)) <= PendingIds(t, now)
  {
    OrderedContents(t, PendingIds(t, now));
    forall x | x in ListExpiredUnaudited(t, now, batch) ensures x in PendingIds(t, now) {
      assert x in Elements(PendingOrder(t, now));
    }
  }

  lemma HandledElements(listed: seq<Id>, failing: set<Id>)
    ensures Elements(Handled(listed, failing)) == Elements(listed) - failing
  {
    forall x ensures x in Elements(Handled(listed, failing)) <==> x in Elements(listed) - failing {
      HandledMembers(listed, failing, x);
    }
  }

  /** A pass takes off the pending rows exactly the listed ones that do not fail. */
  lemma PassLeaves(t: Table, now: int, cfg: SweepConfig, failing: set<Id>)
    ensures PendingIds(Pass(t, now, cfg, failing), now)
         == PendingIds(t, now) - (Elements(ListExpiredUnaudited(t, now, cfg.batch)) - failing)
    ensures forall id :: id in PendingIds(Pass(t, now, cfg, failing), now) ==>
              id in t && Pass(t, now, cfg, failing)[id].expiresAt == t[id].expiresAt
  {
    var listed := ListExpiredUnaudited(t, now, cfg.batch);
    var handled, retry := Handled(listed, failing), RetryPending(listed, cfg.batch, failing);
    var u := MarkExpiredAudited(t, handled, now);
    HandledElements(listed, failing);
    PendingAfterMark(t, handled, now);
    if !retry {
      forall id | id in PendingIds(t, now) ensures id in handled {
        ShortListIsComplete(t, now, cfg.batch, id);
        HandledMembers(listed, failing, id);
      }
      assert PendingIds(u, now) == {};
    }
    PendingAfterPurge(u, now, cfg, retry);
  }

  /** At least a batch of pending rows that fail are ahead of the row. */
  predicate HeldBack(t: Table, now: int, batch: nat, failing: set<Id>, id: Id)
    requires id in PendingIds(t, now)
  {
    |Ahead(t, PendingIds(t, now), id) * failing| >= batch
  }

  /** The rows ahead that a pass can take. */
  function Movable(t: Table, now: int, failing: set<Id>, id: Id): set<Id>
    requires id in PendingIds(t, now)
  {
    Ahead(t, PendingIds(t, now), id) - failing
  }

  /** A held-back row is pending still and held back still; any other is gone, or at least `n`
      of the movable rows ahead of it are. */
  predicate Advanced(t: Table, u: Table, now: int, batch: nat, failing: set<Id>, n: nat, id: Id)
    requires id in PendingIds(t, now)
  {
    if HeldBack(t, now, batch, failing, id) then id in PendingIds(u, now) && HeldBack(u, now, batch, failing, id)
    else id in PendingIds(u, now) ==>
      !HeldBack(u, now, batch, failing, id) && |Movable(u, now, failing, id)| + n <= |Movable(t, now, failing, id)|
  }

  lemma PassMoves(t: Table, now: int, cfg: SweepConfig, failing: set<Id>, id: Id)
    requires id in PendingIds(t, now) && id !in failing
    ensures Advanced(t, Pass(t, now, cfg, failing), now, cfg.batch, failing, 1, id)
  {
    var u := Pass(t, now, cfg, failing);
    var pending, listed := PendingIds(t, now), ListExpiredUnaudited(t, now, cfg.batch);
    var ahead := Ahead(t, pending, id);
    PassLeaves(t, now, cfg, failing);
    ListedExactly(t, now, cfg.batch, id);
    if |ahead * failing| >= cfg.batch {
      Fewer(ahead * failing, ahead);
    }
    if id in PendingIds(u, now) {
      var left := Ahead(u, PendingIds(u, now), id);
      assert left == ahead - (Elements(listed) - failing);
      assert left * failing == ahead * failing;
      assert left - failing == ahead - failing - Elements(listed);
      if |ahead * failing| < cfg.batch {
        OneMoves(ahead, failing, Elements(listed));
      }
    }
  }

  lemma {:induction false} Fewer(a: set<Id>, b: set<Id>)
    requires a <= b
    ensures |a| <= |b|
  {
    assert b == a + (b - a);
  }

  /** A batch of the rows ahead with more rows than fail holds one that does not fail. */
  lemma OneMoves(ahead: set<Id>, failing: set<Id>, listed: set<Id>)
    requires listed <= ahead && |ahead * failing| < |listed|
    ensures |ahead - failing - listed| < |ahead - failing|
  {
    if listed <= failing {
      Fewer(listed, ahead * failing);
    }
    var x :| x in listed && x !in failing;
    Fewer(ahead - failing - listed, ahead - failing - {x});
  }

  lemma AdvancedNone(t: Table, now: int, batch: nat, failing: set<Id>, id: Id)
    requires id in PendingIds(t, now)
    ensures Advanced(t, t, now, batch, failing, 0, id)
  {
  }

  lemma AdvancedTrans(t: Table, u: Table, v: Table, now: int, batch: nat, failing: set<Id>, n: nat, id: Id)
    requires id in PendingIds(t, now) && Advanced(t, u, now, batch, failing, n, id)
    requires if id in PendingIds(u, now) then Advanced(u, v, now, batch, failing, 1, id) else id !in PendingIds(v, now)
    ensures Advanced(t, v, now, batch, failing, n + 1, id)
  {
  }

  lemma OnePassOn(t: Table, u: Table, now: int, cfg: SweepConfig, failing: set<Id>, n: nat, id: Id)
    requires id in PendingIds(t, now) && id !in failing && Advanced(t, u, now, cfg.batch, failing, n, id)
    ensures Advanced(t, Pass(u, now, cfg, failing), now, cfg.batch, failing, n + 1, id)
  {
    var v := Pass(u, now, cfg, failing);
    if id in PendingIds(u, now) {
      PassMoves(u, now, cfg, failing, id);
    } else {
      assert id !in PendingIds(v, now) by {
        PassLeaves(u, now, cfg, failing);
      }
    }
    AdvancedTrans(t, u, v, now, cfg.batch, failing, n, id);
  }

  lemma {:induction false} AfterPasses(t: Table, now: int, cfg: SweepConfig, failing: set<Id>, j: nat, id: Id)
    requires id in PendingIds(t, now) && id !in failing
    ensures Advanced(t, Passes(t, now, cfg, failing, j).table, now, cfg.batch, failing, j, id)
    decreases j
  {
    var u := Passes(t, now, cfg, failing, j).table;
    if j == 0 {
      assert u == t;
      AdvancedNone(t, now, cfg.batch, failing, id);
    } else {
      var p := Passes(t, now, cfg, failing, j - 1);
      AfterPasses(t, now, cfg, failing, j - 1, id);
      assert u == OneMore(p, now, cfg, failing).table;
      OnePassOn(t, p.table, now, cfg, failing, j - 1, id);
    }
  }

  /** What was pending is pending still or was handled, and not both. */
  predicate Split(pending: set<Id>, p: Progress, now: int, failing: set<Id>) {
    PendingIds(p.table, now) == pending - Elements(p.handled) && Elements(p.handled) <= pending - failing
  }

  lemma SplitStep(pending: set<Id>, p: Progress, now: int, cfg: SweepConfig, failing: set<Id>)
    requires Split(pending, p, now, failing)
    ensures Split(pending, OneMore(p, now, cfg, failing), now, failing)
  {
    var listed := ListExpiredUnaudited(p.table, now, cfg.batch);
    PassLeaves(p.table, now, cfg, failing);
    ListedPending(p.table, now, cfg.batch);
    HandledElements(listed, failing);
    assert Elements(p.handled + Handled(listed, failing)) == Elements(p.handled) + Elements(Handled(listed, failing));
  }

  lemma {:induction false} PassesSplit(t: Table, now: int, cfg: SweepConfig, failing: set<Id>, j: nat)
    ensures Split(PendingIds(t, now), Passes(t, now, cfg, failing, j), now, failing)
    decreases j
  {
    if j > 0 {
      PassesSplit(t, now, cfg, failing, j - 1);
      SplitStep(PendingIds(t, now), Passes(t, now, cfg, failing, j - 1), now, cfg, failing);
    }
  }

  /** The row does not fail itself, and is not held back by rows that do. */
  predicate GetsThrough(t: Table, now: int, batch: nat, failing: set<Id>, id: Id)
    requires id in PendingIds(t, now)
  {
    id !in failing && !HeldBack(t, now, batch, failing, id)
  }

  lemma HandledBy(t: Table, now: int, cfg: SweepConfig, failing: set<Id>, id: Id, j: nat)
    requires id in PendingIds(t, now)
    ensures id in Passes(t, now, cfg, failing, j).handled ==> GetsThrough(t, now, cfg.batch, failing, id)
    ensures j >= |PendingIds(t, now)| && GetsThrough(t, now, cfg.batch, failing, id) ==>
              id in Passes(t, now, cfg, failing, j).handled
  {
    var p := Passes(t, now, cfg, failing, j);
    PassesSplit(t, now, cfg, failing, j);
    assert id in p.handled <==> id in Elements(p.handled);
    if id !in failing {
      AfterPasses(t, now, cfg, failing, j, id);
      Fewer(Movable(t, now, failing, id), PendingIds(t, now) - {id});
    }
  }

  /** When the same bodies fail in every pass, a pending row is handled by some number of passes
      exactly when it does not fail itself and fewer than a batch of the failing rows come
      before it; one pass for each pending row is enough to get there. */
  lemma HandledExactly(t: Table, now: int, cfg: SweepConfig, failing: set<Id>, id: Id)
    requires id in PendingIds(t, now)
    ensures (exists j: nat :: id in Passes(t, now, cfg, failing, j).handled)
       <==> GetsThrough(t, now, cfg.batch, failing, id)
    ensures GetsThrough(t, now, cfg.batch, failing, id) ==>
              forall j: nat :: j >= |PendingIds(t, now)| ==> id in Passes(t, now, cfg, failing, j).handled
  {
    forall j: nat
      ensures id in Passes(t, now, cfg, failing, j).handled ==> GetsThrough(t, now, cfg.batch, failing, id)
      ensures j >= |PendingIds(t, now)| && GetsThrough(t, now, cfg.batch, failing, id) ==>
                id in Passes(t, now, cfg, failing, j).handled
    {
      HandledBy(t, now, cfg, failing, id, j);
    }
    HandledBy(t, now, cfg, failing, id, |PendingIds(t, now)|);
  }
}
