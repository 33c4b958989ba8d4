/** The stores and the audit sink as one mutable object, with the operations of
    internal/store/redis/body.go and internal/store/postgres/pastes.go that change them. */
module Stores {
  import opened Base
  import opened Envelope
  import opened PasteTable
  import opened SweepPass
  import opened Lifecycle
  import opened Runs
  import Kdf

  /** How a GET of a body ends: with what is stored, or with a record put there by someone else. */
  datatype Answer = Honest(fate: Fate) | Planted(rec: EncryptedBody)

  /** The key is gone unless the call failed without effect; all else is as it was. */
  predicate Dropped(w: World, t: World, id: Id, fate: Fate) {
    && t == w.(bodies := t.bodies)
    && t.bodies.Keys == (if fate.Fails? then w.bodies.Keys else w.bodies.Keys - {id})
    && (forall k :: k in t.bodies ==> t.bodies[k] == w.bodies[k])
  }

  /** No row but `id` differs, and none comes or goes. */
  predicate OnlyRows(w: World, t: World, id: Id) {
    && t == w.(rows := t.rows) && t.rows.Keys == w.rows.Keys
    && (forall k :: k in w.rows && k != id ==> t.rows[k] == w.rows[k])
  }

  /** Exactly the listed rows that had no mark have this one. */
  predicate Audited(rows: Table, after: Table, ids: seq<Id>, at: int) {
    && after.Keys == rows.Keys
    && (forall k :: k in rows ==>
          after[k] == if k in ids && rows[k].auditedAt.None? then rows[k].(auditedAt := Some(at)) else rows[k])
  }

  /** Exactly the rows created before the cutoff, all or only the completed ones, are gone. */
  predicate PurgedBy(rows: Table, after: Table, completed: bool, cutoff: int) {
    && Within(after, rows)
    && (forall id :: id in rows ==>
          (id !in after <==> rows[id].createdAt < cutoff && (completed ==> Completed(rows[id]))))
  }

  lemma PurgedIsPurge(rows: Table, after: Table, now: int, cfg: SweepConfig)
    requires PurgedBy(rows, after, cfg.completedPurge, Cutoff(now, cfg.retentionDays))
    ensures after == PurgeRows(rows, now, cfg)
  {
  }

  lemma DroppedIsDropBody(w: World, t: World, id: Id, fate: Fate)
    requires Dropped(w, t, id, fate)
    ensures t == DropBody(w, id, fate)
  {
    assert t.bodies == DropBody(w, id, fate).bodies;
  }

  lemma AuditedIsMarked(rows: Table, after: Table, ids: seq<Id>, at: int)
    requires Audited(rows, after, ids, at)
    ensures after == MarkExpiredAudited(rows, ids, at)
  {
  }

  class Stores {
    var w: World

    constructor (cfg: Config, clock: int)
      ensures w == Initial(cfg, clock) && Reachable(w)
    {
      w := Initial(cfg, clock);
      LeadsRefl(Initial(cfg, clock));
    }

    /** What others do while client `me` waits. */
    method Others(me: Client, steps: seq<Step>)
      requires Foreign(me, steps)
      modifies this
      ensures w == Run(old(w), steps) && Leads(old(w), w) && Place(w, me) == Place(old(w), me)
      ensures steps == [] ==> w == old(w)
      ensures forall q: array<Byte> :: allocated(q) && fresh(q) ==> Kdf.IsZero(q)
    {
      for i := 0 to |steps|
        invariant w == Run(old(w), steps[..i]) && Place(w, me) == Place(old(w), me)
        invariant forall q: array<Byte> :: allocated(q) && fresh(q) ==> Kdf.IsZero(q)
      {
        ForeignStep(w, steps[i], me);
        RunOne(old(w), steps[..i], steps[i]);
        assert steps[..i + 1] == steps[..i] + [steps[i]];
        w := Next(w, steps[i]);
      }
      assert steps[..|steps|] == steps;
    }

    method Move(me: Client, next: Option<Pc>)
      modifies this
      ensures w == Shift(old(w), me, next)
      ensures forall q: array<Byte> :: allocated(q) && fresh(q) ==> Kdf.IsZero(q)
    {
      w := w.(pcs := if next.Some? then w.pcs[me := next.value] else w.pcs - {me});
    }

    method Record(e: Event)
      modifies this
      ensures w == Lifecycle.Record(old(w), e)
      ensures forall q: array<Byte> :: allocated(q) && fresh(q) ==> Kdf.IsZero(q)
    {
      w := w.(log := w.log + [e]);
    }

    /** History: an id was drawn for this content. */
    method NoteIssued(id: Id, canonical: Bytes)
      modifies this
      ensures w == old(w).(book := old(w).book.(issued := old(w).book.issued + {id},
                                                made := old(w).book.made[id := canonical]))
      ensures forall q: array<Byte> :: allocated(q) && fresh(q) ==> Kdf.IsZero(q)
    {
      w := w.(book := w.book.(issued := w.book.issued + {id}, made := w.book.made[id := canonical]));
    }

    /** History: a body was encrypted. */
    method NoteCipher(c: Cipher)
      modifies this
      ensures w == old(w).(book := old(w).book.(ciphers := old(w).book.ciphers + {c}))
      ensures forall q: array<Byte> :: allocated(q) && fresh(q) ==> Kdf.IsZero(q)
    {
      w := w.(book := w.book.(ciphers := w.book.ciphers + {c}));
    }

    /** History: content was released. */
    method NoteServed(s: Served)
      modifies this
      ensures w == old(w).(book := old(w).book.(served := old(w).book.served + [s]))
      ensures forall q: array<Byte> :: allocated(q) && fresh(q) ==> Kdf.IsZero(q)
    {
      w := w.(book := w.book.(served := w.book.served + [s]));
    }

    // --- Bodies ----------------------------------------------------------------------------

    /** Put never writes a key without expiry. */
    method Put(id: Id, rec: EncryptedBody, ttl: int, fate: Fate, slip: nat) returns (ok: bool)
      modifies this
      ensures ok <==> ttl > 0 && fate.Lands?
      ensures w == if ttl <= 0 || fate.Fails? then old(w)
                   else var life := if ttl < MILLISECOND then MILLISECOND else ttl;
                        old(w).(bodies := old(w).bodies[id := Body(rec, Some(old(w).clock + life - slip))])
      ensures forall q: array<Byte> :: allocated(q) && fresh(q) ==> Kdf.IsZero(q)
    {
      var expiration := ExpiringTtl(ttl);
      if expiration.None? {
        return false;
      }
      if !fate.Fails? {
        w := w.(bodies := w.bodies[id := Body(rec, DeadlineFor(w.clock, expiration.value, slip))]);
      }
      return fate.Lands?;
    }

    method Get(id: Id, answer: Answer) returns (r: Fetch)
      ensures r.Found? <==> answer.Planted? || (answer.fate.Lands? && id in w.bodies)
      ensures r.Found? ==> r.rec == if answer.Planted? then answer.rec else w.bodies[id].rec
      ensures r.Missing? <==> answer.Honest? && answer.fate.Lands? && id !in w.bodies
      ensures forall q: array<Byte> :: allocated(q) && fresh(q) ==> Kdf.IsZero(q)
    {
      if answer.Planted? {
        return Found(answer.rec);
      }
      if !answer.fate.Lands? {
        return FetchFailed;
      }
      return if id in w.bodies then Found(w.bodies[id].rec) else Missing;
    }

    method Delete(id: Id, fate: Fate) returns (ok: bool)
      modifies this
      ensures ok <==> fate.Lands?
      ensures Dropped(old(w), w, id, fate)
      ensures forall q: array<Byte> :: allocated(q) && fresh(q) ==> Kdf.IsZero(q)
    {
      if !fate.Fails? {
        w := w.(bodies := w.bodies - {id});
      }
      return fate.Lands?;
    }

    /** SETNX: `sizedAt` is the clock reading `ttl` was computed from, kept for the history.
        The reply is None for an error. */
    method MarkUnavailableOnce(id: Id, ttl: int, sizedAt: int, fate: Fate, slip: nat) returns (first: Option<bool>)
      modifies this
      ensures first == if ttl <= 0 || !fate.Lands? then None else Some(id !in old(w).markers)
      ensures w == if ttl <= 0 || fate.Fails? || id in old(w).markers then old(w)
                   else var life := if ttl < MILLISECOND then MILLISECOND else ttl;
                        old(w).(markers := old(w).markers[id := old(w).clock + life - slip],
                                book := old(w).book.(won := old(w).book.won + {(id, old(w).epoch)},
                                                     late := old(w).book.late
                                                       || sizedAt + HOUR - old(w).cfg.slack <= old(w).clock))
      ensures forall q: array<Byte> :: allocated(q) && fresh(q) ==> Kdf.IsZero(q)
    {
      var expiration := ExpiringTtl(ttl);
      if expiration.None? {
        return None;
      }
      var isNew := id !in w.markers;
      if !fate.Fails? && isNew {
        w := w.(markers := w.markers[id := w.clock + expiration.value - slip],
                book := w.book.(won := w.book.won + {(id, w.epoch)},
                                late := w.book.late || sizedAt + HOUR - w.cfg.slack <= w.clock));
      }
      return if fate.Lands? then Some(isNew) else None;
    }

    // --- Rows ------------------------------------------------------------------------------

    method Insert(id: Id, m: Row, fate: Fate) returns (ok: bool)
      modifies this
      ensures ok <==> fate.Lands? && Insertable(old(w).rows, id, m)
      ensures w == if fate.Fails? || !Insertable(old(w).rows, id, m) then old(w)
                   else var row := Stored(old(w).cfg.grain, m);
                        old(w).(rows := old(w).rows[id := row],
                                book := old(w).book.(born := old(w).book.born[id := row.expiresAt]))
      ensures forall q: array<Byte> :: allocated(q) && fresh(q) ==> Kdf.IsZero(q)
    {
      if id in w.rows || m.ttlSeconds < 1 || m.ttlSeconds > TTL_MAX {
        return false;
      }
      if !fate.Fails? {
        var row := Stored(w.cfg.grain, m);
        w := w.(rows := w.rows[id := row], book := w.book.(born := w.book.born[id := row.expiresAt]));
      }
      return fate.Lands?;
    }

    method Load(id: Id, fate: Fate) returns (r: Option<Row>)
      ensures r.Some? <==> fate.Lands? && id in w.rows
      ensures r.Some? ==> r.value == w.rows[id]
      ensures forall q: array<Byte> :: allocated(q) && fresh(q) ==> Kdf.IsZero(q)
    {
      return if fate.Lands? && id in w.rows then Some(w.rows[id]) else None;
    }

    method CountView(id: Id, fate: Fate)
      modifies this
      ensures OnlyRows(old(w), w, id)
      ensures id in w.rows ==>
                w.rows[id] == old(w).rows[id].(views := old(w).rows[id].views + if fate.Fails? then 0 else 1)
      ensures forall q: array<Byte> :: allocated(q) && fresh(q) ==> Kdf.IsZero(q)
    {
      if !fate.Fails? {
        w := w.(rows := IncrementViews(w.rows, id));
      }
    }

    method MarkRowDeleted(id: Id, who: Id, at: int, fate: Fate) returns (ok: bool)
      modifies this
      ensures ok <==> fate.Lands?
      ensures OnlyRows(old(w), w, id)
      ensures id in w.rows ==>
                if fate.Fails? || old(w).rows[id].deletedAt.Some? then w.rows[id] == old(w).rows[id]
                else w.rows[id] == old(w).rows[id].(deletedAt := Some(at), deletedBy := Some(who))
    {
      if !fate.Fails? {
        w := w.(rows := MarkDeleted(w.rows, id, who, at));
      }
      return fate.Lands?;
    }

    method MarkRowsAudited(ids: seq<Id>, at: int, fate: Fate) returns (ok: bool)
      modifies this
      ensures ok <==> fate.Lands?
      ensures fate.Fails? ==> w == old(w).(book := LosePass(old(w).book, ids))
      ensures !fate.Fails? ==> w == old(w).(rows := w.rows) && Audited(old(w).rows, w.rows, ids, at)
    {
      if fate.Fails? {
        w := w.(book := LosePass(w.book, ids));
      } else {
        w := w.(rows := MarkExpiredAudited(w.rows, ids, at));
      }
      return fate.Lands?;
    }

    /** DELETE of old rows, all of them or only the completed ones; the reply is how many went. */
    method PurgeRows(completed: bool, cutoff: int, fate: Fate) returns (count: Option<nat>)
      modifies this
      ensures w == old(w).(rows := w.rows)
      ensures if fate.Fails? then w.rows == old(w).rows else PurgedBy(old(w).rows, w.rows, completed, cutoff)
      ensures count.Some? <==> fate.Lands?
      ensures count.Some? ==> count.value == |old(w).rows.Keys - w.rows.Keys|
    {
      if fate.Fails? {
        return None;
      }
      var rows := if completed then PurgeCompletedOlderThan(w.rows, cutoff) else PurgeOlderThan(w.rows, cutoff);
      var gone := |w.rows.Keys - rows.Keys|;
      w := w.(rows := rows);
      return if fate.Lands? then Some(gone) else None;
    }
  }
}
