/** Create, Read and Delete themselves (internal/paste/service.go): each is a run of the
    lifecycle protocol with anything in between, and clears its buffers on every exit. */
module Service {
  import opened Base
  import opened Canonical
  import opened Kdf
  import opened Envelope
  import opened PasteTable
  import opened Lifecycle
  import opened Runs
  import opened Stores
  import Bodies
  import Reads

  datatype ServiceError =
    | Rejected(reason: CreateError) | SealFailed(cause: EnvelopeError) | TooLate | BodyNotStored | RowNotStored
    | NotFound | RowUnreadable | Forbidden | BodyUnreadable | OpenFailed(cause: EnvelopeError) | BodyNotDeleted
    | RowNotMarked

  datatype CreateScript = CreateScript(
    draws: Draws, ready: Ready, putFate: Fate, slip: nat, insertFate: Fate, rollbackFate: Fate, gap: nat -> seq<Step>)

  datatype ReadScript = ReadScript(
    loadFate: Fate, answer: Answer, markFate: Fate, slip: nat, ready: Ready, countFate: Fate, gap: nat -> seq<Step>)

  datatype DeleteScript = DeleteScript(loadFate: Fate, bodyFate: Fate, markFate: Fate, gap: nat -> seq<Step>)

  ghost predicate ForeignGaps(me: Client, gap: nat -> seq<Step>) {
    forall n :: Foreign(me, gap(n))
  }

  ghost predicate Undisturbed(gap: nat -> seq<Step>) {
    forall n :: gap(n) == []
  }

  datatype ReadResult = ReadResult(meta: Row, status: Status, hashVisible: bool, content: Option<array<Byte>>)

  class PasteService {
    const stores: Stores
    const env: Envelope
    const kdf: KdfFunction

    constructor (stores: Stores, env: Envelope, kdf: KdfFunction)
      ensures this.stores == stores && this.env == env && this.kdf == kdf
    {
      this.stores := stores;
      this.env := env;
      this.kdf := kdf;
    }

    // --- Create ----------------------------------------------------------------------------

    /** From an inserted row on. */
    method NoteCreated(me: Client, id: Id, gap: seq<Step>)
      requires Foreign(me, gap) && Place(stores.w, me) == Some(NotingCreate(id))
      modifies stores
      ensures Leads(old(stores.w), stores.w) && me !in stores.w.pcs && LastEvent(stores.w, PasteCreated(id))
      ensures gap == [] ==> Leaves(old(stores.w), stores.w, old(stores.w).rows, old(stores.w).bodies,
                                   [PasteCreated(id)])
      ensures forall q: array<Byte> :: allocated(q) && fresh(q) ==> IsZero(q)
    {
      stores.Others(me, gap);
      ghost var before := stores.w;
      LeadsStep(old(stores.w), before, Do(me, Note));
      stores.Record(PasteCreated(id));
      stores.Move(me, None);
      assert stores.w == Next(before, Do(me, Note));
    }

    /** The insert failed: the body written before it is deleted again. */
    method RollBack(me: Client, id: Id, fate: Fate, gap: seq<Step>)
      requires Foreign(me, gap) && Place(stores.w, me) == Some(RollingBack(id))
      modifies stores
      ensures Leads(old(stores.w), stores.w) && me !in stores.w.pcs
      ensures !fate.Fails? ==> id !in stores.w.bodies
      ensures forall q: array<Byte> :: allocated(q) && fresh(q) ==> IsZero(q)
    {
      stores.Others(me, gap);
      ghost var before := stores.w;
      LeadsStep(old(stores.w), before, Do(me, Call(fate, 0)));
      var _ := stores.Delete(id, fate);
      DroppedIsDropBody(before, stores.w, id, fate);
      stores.Move(me, None);
      assert stores.w == Next(before, Do(me, Call(fate, 0)));
    }

    method TryInsert(me: Client, id: Id, m: Row, fate: Fate, gap: seq<Step>) returns (ok: bool)
      requires Foreign(me, gap) && Place(stores.w, me) == Some(Inserting(id, m))
      modifies stores
      ensures Leads(old(stores.w), stores.w)
      ensures Place(stores.w, me) == Some(if ok then NotingCreate(id) else RollingBack(id))
      ensures ok ==> id in stores.w.book.born && stores.w.book.born[id] == Coarsen(stores.w.cfg.grain, m.expiresAt)
      ensures gap == [] && fate.Lands? ==>
                && (ok <==> Insertable(old(stores.w).rows, id, m))
                && (ok ==> Leaves(old(stores.w), stores.w, old(stores.w).rows[id := Stored(old(stores.w).cfg.grain, m)],
                                  old(stores.w).bodies, []))
      ensures forall q: array<Byte> :: allocated(q) && fresh(q) ==> IsZero(q)
    {
      stores.Others(me, gap);
      ghost var before := stores.w;
      LeadsStep(old(stores.w), before, Do(me, Call(fate, 0)));
      ok := stores.Insert(id, m, fate);
      stores.Move(me, Some(if ok then NotingCreate(id) else RollingBack(id)));
      assert stores.w == Next(before, Do(me, Call(fate, 0)));
    }

    /** Body first, then the row: on success the row exists with the stored form of `m`. */
    method InsertRow(me: Client, id: Id, m: Row, x: CreateScript) returns (r: Result<Row, ServiceError>)
      requires Reachable(stores.w) && ForeignGaps(me, x.gap) && Place(stores.w, me) == Some(Inserting(id, m))
      modifies stores
      ensures Leads(old(stores.w), stores.w) && me !in stores.w.pcs
      ensures r.Ok? ==> r.value == m && Published(stores.w, id, m)
      ensures r.Err? ==> r.error == RowNotStored && (!x.rollbackFate.Fails? ==> id !in stores.w.bodies)
      ensures Undisturbed(x.gap) && x.insertFate.Lands? ==>
                && (r.Ok? <==> Insertable(old(stores.w).rows, id, m))
                && (r.Ok? ==> Leaves(old(stores.w), stores.w,
                                     old(stores.w).rows[id := Stored(old(stores.w).cfg.grain, m)],
                                     old(stores.w).bodies, [PasteCreated(id)]))
      ensures forall q: array<Byte> :: allocated(q) && fresh(q) ==> IsZero(q)
    {
      var ok := TryInsert(me, id, m, x.insertFate, x.gap(3));
      ghost var tried := stores.w;
      if !ok {
        RollBack(me, id, x.rollbackFate, x.gap(4));
        LeadsTrans(old(stores.w), tried, stores.w);
        return Err(RowNotStored);
      }
      NoteCreated(me, id, x.gap(4));
      LeadsTrans(old(stores.w), tried, stores.w);
      StillPublished(old(stores.w), tried, stores.w, id, m);
      return Ok(m);
    }

    /** From the sealed record on: the remaining lifetime, the body, the row. */
    method Store(me: Client, id: Id, m: Row, rec: EncryptedBody, x: CreateScript) returns (r: Result<Row, ServiceError>)
      requires Reachable(stores.w) && ForeignGaps(me, x.gap) && Place(stores.w, me) == Some(Timing(id, m, rec))
      requires x.slip <= stores.w.cfg.slack
      modifies stores
      ensures Leads(old(stores.w), stores.w) && me !in stores.w.pcs
      ensures r.Ok? ==> r.value == m && Published(stores.w, id, m)
      ensures r == Err(RowNotStored) && !x.rollbackFate.Fails? ==> id !in stores.w.bodies
      ensures r == Err(BodyNotStored) ==> id !in stores.w.rows
      ensures Undisturbed(x.gap) && x.putFate.Lands? && x.insertFate.Lands? ==>
                && (r.Ok? <==> old(stores.w).clock < m.expiresAt && Insertable(old(stores.w).rows, id, m))
                && (r.Ok? ==> Stocked(old(stores.w), stores.w, id, m, rec, x.slip))
      ensures forall q: array<Byte> :: allocated(q) && fresh(q) ==> IsZero(q)
    {
      var remaining := Size(me, id, m, rec, x.gap(1));
      ghost var sized := stores.w;
      if remaining <= 0 {
        return Err(TooLate);
      }
      LeadsOn(old(stores.w), sized);
      r := PutBody(me, id, m, rec, remaining, x);
      LeadsTrans(old(stores.w), sized, stores.w);
    }

    /** The clock reading that sizes the body's lifetime. */
    method Size(me: Client, id: Id, m: Row, rec: EncryptedBody, gap: seq<Step>) returns (remaining: int)
      requires Foreign(me, gap) && Place(stores.w, me) == Some(Timing(id, m, rec))
      modifies stores
      ensures Leads(old(stores.w), stores.w)
      ensures Place(stores.w, me) == if remaining <= 0 then None else Some(Putting(id, m, rec, remaining))
      ensures gap == [] ==> && remaining == m.expiresAt - old(stores.w).clock
                            && Still(old(stores.w), stores.w)
      ensures forall q: array<Byte> :: allocated(q) && fresh(q) ==> IsZero(q)
    {
      stores.Others(me, gap);
      ghost var before := stores.w;
      LeadsStep(old(stores.w), before, Do(me, Now));
      remaining := m.expiresAt - stores.w.clock;
      stores.Move(me, if remaining <= 0 then None else Some(Putting(id, m, rec, remaining)));
      assert stores.w == Next(before, Do(me, Now));
    }

    method Write(me: Client, id: Id, m: Row, rec: EncryptedBody, remaining: int, fate: Fate, slip: nat)
      returns (ok: bool)
      requires Place(stores.w, me) == Some(Putting(id, m, rec, remaining)) && slip <= stores.w.cfg.slack
               && remaining > 0
      modifies stores
      ensures stores.w == Next(old(stores.w), Do(me, Call(fate, slip))) && stores.w.book == old(stores.w).book
      ensures Place(stores.w, me) == if ok then Some(Inserting(id, m)) else None
      ensures ok <==> fate.Lands?
      ensures ok ==> Leaves(old(stores.w), stores.w, old(stores.w).rows,
                            old(stores.w).bodies[id := StoredBody(old(stores.w).clock, rec, remaining, slip)], [])
      ensures forall q: array<Byte> :: allocated(q) && fresh(q) ==> IsZero(q)
    {
      ok := stores.Put(id, rec, remaining, fate, slip);
      stores.Move(me, if ok then Some(Inserting(id, m)) else None);
    }

    /** The body write: one that reports failure ends the Create with the id never given a row. */
    method PutBody(me: Client, id: Id, m: Row, rec: EncryptedBody, remaining: int, x: CreateScript)
      returns (r: Result<Row, ServiceError>)
      requires Reachable(stores.w) && ForeignGaps(me, x.gap)
               && Place(stores.w, me) == Some(Putting(id, m, rec, remaining))
      requires x.slip <= stores.w.cfg.slack && remaining > 0
      modifies stores
      ensures Leads(old(stores.w), stores.w) && me !in stores.w.pcs
      ensures r.Ok? ==> r.value == m && Published(stores.w, id, m)
      ensures r == Err(RowNotStored) && !x.rollbackFate.Fails? ==> id !in stores.w.bodies
      ensures r == Err(BodyNotStored) ==> id !in stores.w.book.born && id !in stores.w.rows
      ensures r.Err? ==> r.error == RowNotStored || r.error == BodyNotStored
      ensures Undisturbed(x.gap) && x.putFate.Lands? && x.insertFate.Lands? ==>
                && (r.Ok? <==> Insertable(old(stores.w).rows, id, m))
                && (r.Ok? ==> Leaves(old(stores.w), stores.w,
                                     old(stores.w).rows[id := Stored(old(stores.w).cfg.grain, m)],
                                     old(stores.w).bodies[id := StoredBody(old(stores.w).clock, rec, remaining,
                                                                           x.slip)],
                                     [PasteCreated(id)]))
      ensures forall q: array<Byte> :: allocated(q) && fresh(q) ==> IsZero(q)
    {
      stores.Others(me, x.gap(2));
      ghost var before := stores.w;
      LeadsOn(old(stores.w), before);
      LeadsStep(old(stores.w), before, Do(me, Call(x.putFate, x.slip)));
      UnbornHasNoRow(before, me);
      var ok := Write(me, id, m, rec, remaining, x.putFate, x.slip);
      ghost var put := stores.w;
      LeadsOn(old(stores.w), put);
      if !ok {
        RowlessUnborn(put, id);
        return Err(BodyNotStored);
      }
      r := InsertRow(me, id, m, x);
      LeadsTrans(old(stores.w), put, stores.w);
    }

    /** Seal returned `rec`: a server-wrapped paste remembers which key it was wrapped with. */
    method AfterSeal(me: Client, id: Id, m: Row, canonical: Bytes, rec: EncryptedBody) returns (kept: Row)
      requires Place(stores.w, me) == Some(Sealing(id, m, canonical)) && SealsFor(rec, id, m.expiresAt, canonical)
      modifies stores
      ensures stores.w == Next(old(stores.w), Do(me, Seal(Some(rec))))
      ensures kept == Wrapped(m, rec) && Place(stores.w, me) == Some(Timing(id, kept, rec))
      ensures Still(old(stores.w), stores.w)
      ensures forall q: array<Byte> :: allocated(q) && fresh(q) ==> IsZero(q)
    {
      stores.NoteCipher(rec.ciphertext);
      kept := m;
      if !m.isProtected {
        kept := m.(kekId := rec.kekId);
      }
      stores.Move(me, Some(Timing(id, kept, rec)));
    }

    method Unsealed(me: Client, id: Id, m: Row, canonical: Bytes)
      requires Place(stores.w, me) == Some(Sealing(id, m, canonical))
      modifies stores
      ensures stores.w == Next(old(stores.w), Do(me, Seal(None))) && me !in stores.w.pcs
      ensures forall q: array<Byte> :: allocated(q) && fresh(q) ==> IsZero(q)
    {
      stores.Move(me, None);
    }

    /** The envelope's part: the buffer is only read. */
    method Encrypt(id: Id, m: Row, canonical: array<Byte>, password: Bytes, x: CreateScript, ghost ring: Ring)
      returns (r: Result<EncryptedBody, EnvelopeError>)
      requires env.Valid() && ring == env.Value()
      modifies env.gate
      ensures env.Valid() && env.gate.slots == old(env.gate.slots)
      ensures r == SealValue(ring, kdf, Refusal(x.ready, env.gate.slots, env.gate.capacity),
                             id, m.expiresAt, canonical[..], password, x.draws)
      ensures r.Ok? ==> SealsFor(r.value, id, m.expiresAt, canonical[..])
      ensures forall q: array<Byte> :: allocated(q) && fresh(q) ==> IsZero(q)
    {
      r := env.Seal(kdf, x.ready, id, m.expiresAt, canonical, password, x.draws);
    }

    method SealBody(me: Client, id: Id, m: Row, canonical: array<Byte>, password: Bytes, x: CreateScript,
                    ghost ring: Ring)
      returns (r: Result<EncryptedBody, ServiceError>, kept: Row)
      requires ForeignGaps(me, x.gap) && Place(stores.w, me) == Some(Sealing(id, m, canonical[..]))
      requires env.Valid() && ring == env.Value()
      modifies stores, env.gate
      ensures env.Valid() && env.gate.slots == old(env.gate.slots)
      ensures Leads(old(stores.w), stores.w)
      ensures Place(stores.w, me) == if r.Ok? then Some(Timing(id, kept, r.value)) else None
      ensures r.Ok? ==> kept == Wrapped(m, r.value)
      ensures r == MapSealed(SealValue(ring, kdf, Refusal(x.ready, env.gate.slots, env.gate.capacity),
                                       id, m.expiresAt, canonical[..], password, x.draws))
      ensures Undisturbed(x.gap) && r.Ok? ==> Still(old(stores.w), stores.w)
      ensures forall q: array<Byte> :: allocated(q) && fresh(q) ==> IsZero(q)
    {
      kept := m;
      stores.Others(me, x.gap(0));
      ghost var before := stores.w;
      var sealed := Encrypt(id, m, canonical, password, x, ring);
      if sealed.Err? {
        LeadsStep(old(stores.w), before, Do(me, Seal(None)));
        Unsealed(me, id, m, canonical[..]);
        return Err(SealFailed(sealed.error)), m;
      }
      LeadsStep(old(stores.w), before, Do(me, Seal(Some(sealed.value))));
      kept := AfterSeal(me, id, m, canonical[..], sealed.value);
      r := Ok(sealed.value);
    }

    /** From a fixed id, expiry and canonical buffer on. */
    method SealAndStore(me: Client, id: Id, m: Row, canonical: array<Byte>, password: Bytes, x: CreateScript,
                        ghost ring: Ring)
      returns (r: Result<Row, ServiceError>)
      requires Reachable(stores.w) && ForeignGaps(me, x.gap) && x.slip <= stores.w.cfg.slack
      requires Place(stores.w, me) == Some(Sealing(id, m, canonical[..]))
      requires env.Valid() && ring == env.Value() && forall k :: k in env.keys ==> env.keys[k] != canonical
      modifies stores, env.gate, canonical
      ensures env.Valid() && env.gate.slots == old(env.gate.slots)
      ensures Leads(old(stores.w), stores.w) && me !in stores.w.pcs
      ensures r.Ok? ==> r.value.(kekId := m.kekId) == m && Published(stores.w, id, m)
      ensures r == Err(RowNotStored) && !x.rollbackFate.Fails? ==> id !in stores.w.bodies
      ensures StoreOutcome(old(stores.w), stores.w,
                           SealValue(ring, kdf, Refusal(x.ready, env.gate.slots, env.gate.capacity),
                                     id, m.expiresAt, old(canonical[..]), password, x.draws), id, m, x, r)
      ensures forall q: array<Byte> :: allocated(q) && fresh(q) ==> IsZero(q)
    {
      var sealed, kept := SealBody(me, id, m, canonical, password, x, ring);
      if sealed.Err? {
        return Err(sealed.error);
      }
      Zero(canonical);
      ghost var timing := stores.w;
      LeadsOn(old(stores.w), timing);
      r := Store(me, id, kept, sealed.value, x);
      LeadsTrans(old(stores.w), timing, stores.w);
      StoreFrom(old(stores.w), timing, stores.w, sealed.value, id, m, x, r);
    }

    /** Create.  Input is refused exactly when a check fails, and then nothing happens.  On
        success the paste is on record with the canonical content, its hash and the stored form
        of the promised expiry.  Every exit leaves zero whatever buffers were made, for the
        canonical bytes or a key.  Undisturbed and with its calls landing it succeeds exactly
        for lifetimes the table admits, and then adds just the row, the body and the event. */
    method Create(me: Client, p: Principal, content: Bytes, password: Bytes, ttlSeconds: int, id: Id, x: CreateScript)
      returns (r: Result<Row, ServiceError>)
      requires Reachable(stores.w) && ForeignGaps(me, x.gap) && x.slip <= stores.w.cfg.slack && env.Valid()
      requires me !in stores.w.pcs && id !in stores.w.book.issued
      modifies stores, env.gate
      ensures env.Valid() && env.Value() == old(env.Value()) && env.gate.slots == old(env.gate.slots)
      ensures Leads(old(stores.w), stores.w) && me !in stores.w.pcs
      ensures var checked := CheckInput(old(stores.w).cfg.limits, content, password, ttlSeconds);
              && (checked.Err? ==> r == Err(Rejected(checked.error)) && stores.w == old(stores.w))
              && (r.Ok? ==> checked.Ok? && Created(stores.w, id, r.value, p.user, old(stores.w).clock, checked.value))
              && (checked.Ok? ==> CreateOutcome(old(stores.w), stores.w, env.Value(), kdf,
                                                Refusal(x.ready, env.gate.slots, env.gate.capacity),
                                                p, password, ttlSeconds, id, checked.value, x, r))
      ensures r == Err(RowNotStored) && !x.rollbackFate.Fails? ==> id !in stores.w.bodies
      ensures forall q: array<Byte> :: allocated(q) && fresh(q) ==> IsZero(q)
    {
      var limits := stores.w.cfg.limits;
      LeadsRefl(stores.w);
      var ttl := ttlSeconds;
      if ttl == 0 {
        ttl := limits.ttlDefault;
      }
      if ttl < limits.ttlMin || ttl > limits.ttlMax {
        return Err(Rejected(InvalidTtl));
      }
      if !ValidPassword(password) {
        return Err(Rejected(InvalidPassword));
      }
      var form := Canonicalize(content, limits.maxSize);
      if form.Err? {
        return Err(Rejected(BadContent(form.error)));
      }
      r := CreateChecked(me, p, content, password, ttlSeconds, id, form.value, x, env.Value());
    }

    /** From accepted input on: the buffer for the canonical bytes is cleared last. */
    method CreateChecked(me: Client, p: Principal, content: Bytes, password: Bytes, ttlSeconds: int, id: Id,
                         form: Bytes,
                         x: CreateScript, ghost ring: Ring)
      returns (r: Result<Row, ServiceError>)
      requires Reachable(stores.w) && ForeignGaps(me, x.gap) && x.slip <= stores.w.cfg.slack
      requires env.Valid() && ring == env.Value()
      requires me !in stores.w.pcs && id !in stores.w.book.issued
      requires CheckInput(stores.w.cfg.limits, content, password, ttlSeconds) == Ok(form)
      modifies stores, env.gate
      ensures env.Valid() && env.gate.slots == old(env.gate.slots)
      ensures Leads(old(stores.w), stores.w) && me !in stores.w.pcs
      ensures r.Ok? ==> Created(stores.w, id, r.value, p.user, old(stores.w).clock, form)
      ensures r == Err(RowNotStored) && !x.rollbackFate.Fails? ==> id !in stores.w.bodies
      ensures CreateOutcome(old(stores.w), stores.w, ring, kdf, Refusal(x.ready, env.gate.slots, env.gate.capacity),
                            p, password, ttlSeconds, id, form, x, r)
      ensures forall q: array<Byte> :: allocated(q) && fresh(q) ==> IsZero(q)
    {
      var canonical := Buffer(form);
      r := CreateFrom(me, p, content, password, ttlSeconds, id, canonical, x, ring);
      Zero(canonical);
    }

    /** From the canonical buffer on. */
    method CreateFrom(me: Client, p: Principal, content: Bytes, password: Bytes, ttlSeconds: int, id: Id,
                      canonical: array<Byte>, x: CreateScript, ghost ring: Ring)
      returns (r: Result<Row, ServiceError>)
      requires Reachable(stores.w) && ForeignGaps(me, x.gap) && x.slip <= stores.w.cfg.slack
      requires env.Valid() && ring == env.Value() && forall k :: k in env.keys ==> env.keys[k] != canonical
      requires me !in stores.w.pcs && id !in stores.w.book.issued
      requires CheckInput(stores.w.cfg.limits, content, password, ttlSeconds) == Ok(canonical[..])
      modifies stores, env.gate, canonical
      ensures env.Valid() && env.gate.slots == old(env.gate.slots)
      ensures Leads(old(stores.w), stores.w) && me !in stores.w.pcs
      ensures r.Ok? ==> Created(stores.w, id, r.value, p.user, old(stores.w).clock, old(canonical[..]))
      ensures r == Err(RowNotStored) && !x.rollbackFate.Fails? ==> id !in stores.w.bodies
      ensures CreateOutcome(old(stores.w), stores.w, ring, kdf, Refusal(x.ready, env.gate.slots, env.gate.capacity),
                            p, password, ttlSeconds, id, old(canonical[..]), x, r)
      ensures forall q: array<Byte> :: allocated(q) && fresh(q) ==> IsZero(q)
    {
      UnissuedHasNoRow(stores.w, id);
      var m := Issue(me, p, content, password, ttlSeconds, id, canonical[..]);
      ghost var begun := stores.w;
      r := SealAndStore(me, id, m, canonical, password, x, ring);
      LeadsTrans(old(stores.w), begun, stores.w);
      StillMade(begun, stores.w, id);
      OutcomeFollows(old(stores.w), begun, stores.w, ring, kdf, Refusal(x.ready, env.gate.slots, env.gate.capacity),
                     p, password, ttlSeconds, id, old(canonical[..]), x, r);
    }

    method Issue(me: Client, p: Principal, content: Bytes, password: Bytes, ttlSeconds: int, id: Id, canonical: Bytes)
      returns (m: Row)
      requires Reachable(stores.w) && me !in stores.w.pcs && id !in stores.w.book.issued
      requires CheckInput(stores.w.cfg.limits, content, password, ttlSeconds) == Ok(canonical)
      modifies stores
      ensures m == NewRow(p.user, old(stores.w).clock, ChosenTtl(old(stores.w).cfg.limits, ttlSeconds), canonical,
                          password != [])
      ensures Leads(old(stores.w), stores.w) && Reachable(stores.w)
      ensures Still(old(stores.w), stores.w)
      ensures Place(stores.w, me) == Some(Sealing(id, m, canonical))
      ensures id in stores.w.book.made && stores.w.book.made[id] == canonical
      ensures forall q: array<Byte> :: allocated(q) && fresh(q) ==> IsZero(q)
    {
      LeadsRefl(stores.w);
      LeadsStep(stores.w, stores.w, Do(me, BeginCreate(p.user, content, password, ttlSeconds, id)));
      m := NewRow(p.user, stores.w.clock, ChosenTtl(stores.w.cfg.limits, ttlSeconds), canonical, password != []);
      stores.NoteIssued(id, canonical);
      stores.Move(me, Some(Sealing(id, m, canonical)));
      assert stores.w == Next(old(stores.w), Do(me, BeginCreate(p.user, content, password, ttlSeconds, id)));
      LeadsOn(old(stores.w), stores.w);
    }

    // --- Read ------------------------------------------------------------------------------

    /** A later clock reading: the paste may have expired since. */
    method Recheck(me: Client, pc: Pc) returns (late: bool)
      requires Place(stores.w, me) == Some(pc) && (pc.Opened? || pc.Counted?)
      modifies stores
      ensures stores.w == Shift(ReadEffect(old(stores.w), pc, Now), me, ReadMove(old(stores.w), pc, Now))
      ensures Place(stores.w, me) == if late then None
                                     else Some(if pc.Opened? then Counting(pc.id, pc.m, pc.plain)
                                               else NotingView(pc.id, pc.m, pc.plain))
      ensures late <==> pc.m.expiresAt <= old(stores.w).clock
      ensures Still(old(stores.w), stores.w)
      ensures forall q: array<Byte> :: allocated(q) && fresh(q) ==> IsZero(q)
    {
      late := pc.m.expiresAt <= stores.w.clock;
      if late {
        stores.Move(me, None);
      } else if pc.Opened? {
        stores.Move(me, Some(Counting(pc.id, pc.m, pc.plain)));
      } else {
        stores.Move(me, Some(NotingView(pc.id, pc.m, pc.plain)));
      }
    }

    method Count(me: Client, id: Id, m: Row, plain: Bytes, fate: Fate)
      requires Place(stores.w, me) == Some(Counting(id, m, plain))
      modifies stores
      ensures var pc := Counting(id, m, plain);
              stores.w == Shift(ReadEffect(old(stores.w), pc, Call(fate, 0)), me,
                                ReadMove(old(stores.w), pc, Call(fate, 0)))
      ensures Place(stores.w, me) == Some(Counted(id, m, plain))
      ensures Leaves(old(stores.w), stores.w, CountedRows(old(stores.w).rows, id, fate), old(stores.w).bodies, [])
      ensures forall q: array<Byte> :: allocated(q) && fresh(q) ==> IsZero(q)
    {
      stores.CountView(id, fate);
      assert stores.w.rows == CountedRows(old(stores.w).rows, id, fate);
      stores.Move(me, Some(Counted(id, m, plain)));
    }

    method CountAndCheck(me: Client, id: Id, m: Row, plain: Bytes, x: ReadScript) returns (late: bool)
      requires ForeignGaps(me, x.gap) && Place(stores.w, me) == Some(Counting(id, m, plain))
      modifies stores
      ensures Leads(old(stores.w), stores.w)
      ensures Place(stores.w, me) == if late then None else Some(NotingView(id, m, plain))
      ensures Undisturbed(x.gap) ==>
                && (late <==> m.expiresAt <= old(stores.w).clock)
                && Leaves(old(stores.w), stores.w, CountedRows(old(stores.w).rows, id, x.countFate),
                          old(stores.w).bodies, [])
      ensures forall q: array<Byte> :: allocated(q) && fresh(q) ==> IsZero(q)
    {
      stores.Others(me, x.gap(5));
      LeadsRead(old(stores.w), stores.w, me, Call(x.countFate, 0));
      Count(me, id, m, plain, x.countFate);
      ghost var counted := stores.w;
      stores.Others(me, x.gap(6));
      LeadsTrans(old(stores.w), counted, stores.w);
      LeadsRead(old(stores.w), stores.w, me, Now);
      late := Recheck(me, Counted(id, m, plain));
    }

    method NoteView(me: Client, id: Id, m: Row, plain: Bytes, gap: seq<Step>)
      requires Foreign(me, gap) && Place(stores.w, me) == Some(NotingView(id, m, plain))
      modifies stores
      ensures Leads(old(stores.w), stores.w) && Place(stores.w, me) == Some(Viewed(id, m, plain))
      ensures gap == [] ==> Leaves(old(stores.w), stores.w, old(stores.w).rows, old(stores.w).bodies,
                                   [ViewEvent(id, m)])
      ensures forall q: array<Byte> :: allocated(q) && fresh(q) ==> IsZero(q)
    {
      stores.Others(me, gap);
      LeadsRead(old(stores.w), stores.w, me, Note);
      if m.isProtected {
        stores.Record(UnlockSuccess(id));
      } else {
        stores.Record(PasteViewed(id));
      }
      stores.Move(me, Some(Viewed(id, m, plain)));
    }

    /** The last clock reading: only content still unexpired then is released. */
    method Serve(me: Client, id: Id, m: Row, plain: Bytes, gap: seq<Step>) returns (late: bool)
      requires Foreign(me, gap) && Place(stores.w, me) == Some(Viewed(id, m, plain))
      modifies stores
      ensures Leads(old(stores.w), stores.w) && me !in stores.w.pcs
      ensures !late ==> LastServed(stores.w, id, m, plain)
      ensures gap == [] ==> && (late <==> m.expiresAt <= old(stores.w).clock)
                            && Still(old(stores.w), stores.w)
      ensures forall q: array<Byte> :: allocated(q) && fresh(q) ==> IsZero(q)
    {
      stores.Others(me, gap);
      LeadsRead(old(stores.w), stores.w, me, Now);
      late := m.expiresAt <= stores.w.clock;
      if !late {
        stores.NoteServed(Served(id, m, plain, stores.w.clock));
      }
      stores.Move(me, None);
    }

    method RecheckOpened(me: Client, id: Id, m: Row, plain: Bytes, gap: seq<Step>) returns (late: bool)
      requires Foreign(me, gap) && Place(stores.w, me) == Some(Opened(id, m, plain))
      modifies stores
      ensures Leads(old(stores.w), stores.w)
      ensures Place(stores.w, me) == if late then None else Some(Counting(id, m, plain))
      ensures gap == [] ==> && (late <==> m.expiresAt <= old(stores.w).clock)
                            && Still(old(stores.w), stores.w)
      ensures forall q: array<Byte> :: allocated(q) && fresh(q) ==> IsZero(q)
    {
      stores.Others(me, gap);
      LeadsRead(old(stores.w), stores.w, me, Now);
      late := Recheck(me, Opened(id, m, plain));
    }

    /** All that follows decryption: three more readings, the view count and the event. */
    method Present(me: Client, id: Id, m: Row, plain: Bytes, x: ReadScript) returns (late: bool)
      requires ForeignGaps(me, x.gap) && Place(stores.w, me) == Some(Opened(id, m, plain))
      modifies stores
      ensures Leads(old(stores.w), stores.w) && me !in stores.w.pcs
      ensures !late ==> LastServed(stores.w, id, m, plain)
      ensures Undisturbed(x.gap) && old(stores.w).clock < m.expiresAt ==>
                && !late
                && Leaves(old(stores.w), stores.w, CountedRows(old(stores.w).rows, id, x.countFate),
                          old(stores.w).bodies,
                          [ViewEvent(id, m)])
      ensures forall q: array<Byte> :: allocated(q) && fresh(q) ==> IsZero(q)
    {
      late := RecheckOpened(me, id, m, plain, x.gap(4));
      if late {
        return;
      }
      ghost var counting := stores.w;
      late := CountAndCheck(me, id, m, plain, x);
      LeadsTrans(old(stores.w), counting, stores.w);
      if late {
        return;
      }
      ghost var noting := stores.w;
      NoteView(me, id, m, plain, x.gap(7));
      LeadsTrans(old(stores.w), noting, stores.w);
      ghost var viewed := stores.w;
      late := Serve(me, id, m, plain, x.gap(8));
      LeadsTrans(old(stores.w), viewed, stores.w);
    }

    /** From decrypted content on: whatever happens on the way, either the buffer is handed to
        the caller untouched, or it is zero. */
    method Release(me: Client, id: Id, m: Row, plain: array<Byte>, x: ReadScript) returns (released: bool)
      requires ForeignGaps(me, x.gap) && Place(stores.w, me) == Some(Opened(id, m, plain[..]))
      modifies stores, plain
      ensures Leads(old(stores.w), stores.w) && me !in stores.w.pcs
      ensures if released then plain[..] == old(plain[..]) && LastServed(stores.w, id, m, plain[..]) else IsZero(plain)
      ensures Undisturbed(x.gap) && old(stores.w).clock < m.expiresAt ==>
                && released
                && Leaves(old(stores.w), stores.w, CountedRows(old(stores.w).rows, id, x.countFate),
                          old(stores.w).bodies,
                          [ViewEvent(id, m)])
      ensures forall q: array<Byte> :: allocated(q) && fresh(q) ==> IsZero(q)
    {
      var late := Present(me, id, m, plain[..], x);
      if late {
        Zero(plain);
      }
      return !late;
    }

    /** The envelope's part of Read, with the wrapping key it came to or why it did not. */
    method Decrypt(id: Id, m: Row, rec: EncryptedBody, password: Bytes, ready: Ready, ghost ring: Ring)
      returns (r: Result<array<Byte>, EnvelopeError>, ghost key: Bytes, ghost refused: Option<EnvelopeError>)
      requires env.Valid() && ring == env.Value()
      modifies env.gate
      ensures env.Valid() && env.gate.slots == old(env.gate.slots)
      ensures r.Ok? ==> fresh(r.value)
      ensures Bytewise(r) == if refused.Some? then Err(refused.value) else OpenWith(key, id, m.expiresAt, rec)
      ensures Bytewise(r) == OpenValue(ring, kdf, Refusal(ready, env.gate.slots, env.gate.capacity), id, m.expiresAt,
                                       rec, password)
      ensures forall q: array<Byte> :: allocated(q) && fresh(q) ==> (r.Ok? && q == r.value) || IsZero(q)
    {
      ghost var refusal := Refusal(ready, env.gate.slots, env.gate.capacity);
      key, refused := OpenChoice(ring, kdf, refusal, id, m.expiresAt, rec, password);
      r := env.Open(kdf, ready, id, m.expiresAt, rec, password);
    }

    method NoteFailure(me: Client, id: Id, gap: seq<Step>)
      requires Foreign(me, gap) && Place(stores.w, me) == Some(NotingFailure(id))
      modifies stores
      ensures Leads(old(stores.w), stores.w) && me !in stores.w.pcs && LastEvent(stores.w, UnlockFailure(id))
      ensures forall q: array<Byte> :: allocated(q) && fresh(q) ==> IsZero(q)
    {
      stores.Others(me, gap);
      LeadsRead(old(stores.w), stores.w, me, Note);
      stores.Record(UnlockFailure(id));
      stores.Move(me, None);
    }

    method OpenStep(me: Client, id: Id, m: Row, rec: EncryptedBody, password: Bytes, x: ReadScript, ghost ring: Ring)
      returns (r: Result<array<Byte>, EnvelopeError>)
      requires ForeignGaps(me, x.gap) && Place(stores.w, me) == Some(Opening(id, m, rec, password))
      requires env.Valid() && ring == env.Value()
      modifies stores, env.gate
      ensures env.Valid() && env.gate.slots == old(env.gate.slots)
      ensures Leads(old(stores.w), stores.w) && Place(stores.w, me) == Decrypted(id, m, Bytewise(r))
      ensures r.Ok? ==> fresh(r.value)
      ensures Bytewise(r) == OpenValue(ring, kdf, Refusal(x.ready, env.gate.slots, env.gate.capacity), id, m.expiresAt,
                                       rec, password)
      ensures Undisturbed(x.gap) ==> Still(old(stores.w), stores.w)
      ensures forall q: array<Byte> :: allocated(q) && fresh(q) ==> (r.Ok? && q == r.value) || IsZero(q)
    {
      stores.Others(me, x.gap(3));
      ghost var before := stores.w;
      var body, key, refused := Decrypt(id, m, rec, password, x.ready, ring);
      r := body;
      LeadsRead(old(stores.w), before, me, Open(key, refused));
      OpenMoves(before, id, m, rec, password, key, refused);
      if r.Err? {
        stores.Move(me, Decrypted(id, m, Err(r.error)));
      } else {
        stores.Move(me, Decrypted(id, m, Ok(r.value[..])));
      }
    }

    /** From a fetched record on. */
    method OpenBody(me: Client, id: Id, m: Row, rec: EncryptedBody, password: Bytes, x: ReadScript, ghost ring: Ring)
      returns (r: Result<bool, ServiceError>, plain: array?<Byte>)
      requires ForeignGaps(me, x.gap) && Place(stores.w, me) == Some(Opening(id, m, rec, password))
      requires env.Valid() && ring == env.Value()
      modifies stores, env.gate
      ensures env.Valid() && env.gate.slots == old(env.gate.slots)
      ensures Leads(old(stores.w), stores.w) && me !in stores.w.pcs
      ensures plain != null <==> r.Ok?
      ensures plain != null ==> fresh(plain)
      ensures plain != null ==> if r.value then LastServed(stores.w, id, m, plain[..]) else IsZero(plain)
      ensures r == Err(OpenFailed(WrongPassword)) ==> LastEvent(stores.w, UnlockFailure(id))
      ensures var unsealed := OpenValue(ring, kdf, Refusal(x.ready, env.gate.slots, env.gate.capacity), id, m.expiresAt,
                                        rec, password);
              && (unsealed.Err? ==> r == Err(OpenFailed(unsealed.error)))
              && (unsealed.Ok? ==> r.Ok? && (r.value ==> plain[..] == unsealed.value))
              && (unsealed.Ok? && Undisturbed(x.gap) && old(stores.w).clock < m.expiresAt ==>
                    r.value && Leaves(old(stores.w), stores.w, CountedRows(old(stores.w).rows, id, x.countFate),
                                      old(stores.w).bodies, [ViewEvent(id, m)]))
      ensures forall q: array<Byte> :: allocated(q) && fresh(q) ==> (r == Ok(true) && q == plain) || IsZero(q)
    {
      var body := OpenStep(me, id, m, rec, password, x, ring);
      ghost var after := stores.w;
      if body.Err? {
        if body.error.WrongPassword? {
          NoteFailure(me, id, x.gap(4));
          LeadsTrans(old(stores.w), after, stores.w);
        }
        return Err(OpenFailed(body.error)), null;
      }
      var released := Release(me, id, m, body.value, x);
      LeadsTrans(old(stores.w), after, stores.w);
      return Ok(released), body.value;
    }

    /** The body was missing although the paste is unexpired: report it once. */
    method ReportUnavailable(me: Client, id: Id, m: Row, readAt: int, x: ReadScript)
      requires ForeignGaps(me, x.gap) && Place(stores.w, me) == Some(MarkingUnavailable(id, m, readAt))
      requires readAt < m.expiresAt && x.slip <= stores.w.cfg.slack && Reachable(stores.w)
      modifies stores
      ensures Leads(old(stores.w), stores.w) && me !in stores.w.pcs
      ensures Undisturbed(x.gap) && x.markFate.Lands? ==>
                MarkedOnce(old(stores.w), stores.w, id, m.expiresAt - readAt, x.slip)
      ensures forall q: array<Byte> :: allocated(q) && fresh(q) ==> IsZero(q)
    {
      var epoch, first := MarkStep(me, id, m, readAt, x);
      ghost var marked := stores.w;
      if first {
        stores.Others(me, x.gap(4));
        LeadsTrans(old(stores.w), marked, stores.w);
        LeadsRead(old(stores.w), stores.w, me, Note);
        stores.Record(PasteUnavailable(id, epoch));
        stores.Move(me, None);
      }
    }

    method MarkStep(me: Client, id: Id, m: Row, readAt: int, x: ReadScript) returns (epoch: nat, first: bool)
      requires ForeignGaps(me, x.gap) && Place(stores.w, me) == Some(MarkingUnavailable(id, m, readAt))
      requires readAt < m.expiresAt && x.slip <= stores.w.cfg.slack && Reachable(stores.w)
      modifies stores
      ensures Leads(old(stores.w), stores.w)
      ensures Place(stores.w, me) == if first then Some(NotingUnavailable(id, epoch)) else None
      ensures Undisturbed(x.gap) && x.markFate.Lands? ==>
                && epoch == old(stores.w).epoch && (first <==> id !in old(stores.w).markers)
                && stores.w.log == old(stores.w).log && SameStores(old(stores.w), stores.w)
                && stores.w.markers == MarkedFor(old(stores.w), id, m.expiresAt - readAt, x.slip)
      ensures forall q: array<Byte> :: allocated(q) && fresh(q) ==> IsZero(q)
    {
      stores.Others(me, x.gap(3));
      LeadsOn(old(stores.w), stores.w);
      LeadsRead(old(stores.w), stores.w, me, Call(x.markFate, x.slip));
      epoch := stores.w.epoch;
      first := TryMark(me, id, m, readAt, x);
    }

    method TryMark(me: Client, id: Id, m: Row, readAt: int, x: ReadScript) returns (first: bool)
      requires Place(stores.w, me) == Some(MarkingUnavailable(id, m, readAt))
      requires readAt < m.expiresAt && x.slip <= stores.w.cfg.slack
      modifies stores
      ensures var pc, a := MarkingUnavailable(id, m, readAt), Call(x.markFate, x.slip);
              stores.w == Shift(ReadEffect(old(stores.w), pc, a), me, ReadMove(old(stores.w), pc, a))
      ensures Place(stores.w, me) == if first then Some(NotingUnavailable(id, old(stores.w).epoch)) else None
      ensures x.markFate.Lands? ==>
                && (first <==> id !in old(stores.w).markers)
                && stores.w.log == old(stores.w).log && SameStores(old(stores.w), stores.w)
                && stores.w.markers == MarkedFor(old(stores.w), id, m.expiresAt - readAt, x.slip)
      ensures forall q: array<Byte> :: allocated(q) && fresh(q) ==> IsZero(q)
    {
      var epoch := stores.w.epoch;
      var won := stores.MarkUnavailableOnce(id, m.expiresAt - readAt + HOUR, readAt, x.markFate, x.slip);
      first := won == Some(true);
      stores.Move(me, if first then Some(NotingUnavailable(id, epoch)) else None);
    }

    method Fetch(me: Client, id: Id, m: Row, password: Bytes, x: ReadScript) returns (reply: Fetch)
      requires ForeignGaps(me, x.gap) && Place(stores.w, me) == Some(Fetching(id, m, password))
      requires Reachable(stores.w) && (x.answer.Planted? ==> Plantable(stores.w.book, x.answer.rec))
      modifies stores
      ensures Leads(old(stores.w), stores.w) && Place(stores.w, me) == Some(Fetched(id, m, password, reply))
      ensures Undisturbed(x.gap) ==>
                && (x.answer.Honest? ==> reply == FetchOf(old(stores.w), id, x.answer.fate))
                && Still(old(stores.w), stores.w)
      ensures forall q: array<Byte> :: allocated(q) && fresh(q) ==> IsZero(q)
    {
      stores.Others(me, x.gap(1));
      if x.answer.Planted? {
        PlantableOn(old(stores.w), stores.w, x.answer.rec);
      }
      LeadsRead(old(stores.w), stores.w, me, if x.answer.Planted? then Plant(x.answer.rec) else Call(x.answer.fate, 0));
      reply := stores.Get(id, x.answer);
      stores.Move(me, Some(Fetched(id, m, password, reply)));
    }

    /** The clock reading after the fetch: expired, missing, unreadable, locked or to be unsealed. */
    method Judge(me: Client, id: Id, m: Row, password: Bytes, reply: Fetch) returns (next: Option<Pc>)
      requires Place(stores.w, me) == Some(Fetched(id, m, password, reply))
      modifies stores
      ensures stores.w == Shift(ReadEffect(old(stores.w), Fetched(id, m, password, reply), Now), me, next)
      ensures next == ReadMove(old(stores.w), Fetched(id, m, password, reply), Now)
      ensures Still(old(stores.w), stores.w)
      ensures forall q: array<Byte> :: allocated(q) && fresh(q) ==> IsZero(q)
    {
      var now := stores.w.clock;
      if m.expiresAt <= now {
        next := None;
      } else if reply.Missing? {
        next := Some(MarkingUnavailable(id, m, now));
      } else if reply.FetchFailed? {
        next := None;
      } else if m.isProtected && password == [] {
        next := None;
      } else {
        next := Some(Opening(id, m, reply.rec, password));
      }
      stores.Move(me, next);
    }

    method JudgeStep(me: Client, id: Id, m: Row, password: Bytes, reply: Fetch, x: ReadScript)
      returns (now: int, next: Option<Pc>)
      requires ForeignGaps(me, x.gap) && Place(stores.w, me) == Some(Fetched(id, m, password, reply))
      modifies stores
      ensures Leads(old(stores.w), stores.w) && Place(stores.w, me) == next
      ensures next == if m.expiresAt <= now || reply.FetchFailed? then None
                      else if reply.Missing? then Some(MarkingUnavailable(id, m, now))
                      else if m.isProtected && password == [] then None
                      else Some(Opening(id, m, reply.rec, password))
      ensures Undisturbed(x.gap) ==> && now == old(stores.w).clock
                                     && Still(old(stores.w), stores.w)
      ensures forall q: array<Byte> :: allocated(q) && fresh(q) ==> IsZero(q)
    {
      stores.Others(me, x.gap(2));
      LeadsRead(old(stores.w), stores.w, me, Now);
      now := stores.w.clock;
      next := Judge(me, id, m, password, reply);
    }

    /** From the body store's reply on, as part of a run from `start`. */
    method AfterFetch(me: Client, id: Id, m: Row, password: Bytes, reply: Fetch, x: ReadScript, ghost ring: Ring,
                      ghost start: World)
      returns (r: Result<ReadResult, ServiceError>)
      requires Reachable(start) && Leads(start, stores.w) && ForeignGaps(me, x.gap) && x.slip <= start.cfg.slack
      requires env.Valid() && ring == env.Value() && Place(stores.w, me) == Some(Fetched(id, m, password, reply))
      modifies stores, env.gate
      ensures env.Valid() && env.gate.slots == old(env.gate.slots)
      ensures Leads(start, stores.w) && me !in stores.w.pcs
      ensures r.Ok? ==> Reported(r.value, m, password)
      ensures ContentOf(r) != null ==> LastServed(stores.w, id, m, ContentOf(r)[..])
      ensures Undisturbed(x.gap) && Still(start, old(stores.w)) ==>
                SeenOutcome(start, stores.w, ring, kdf, Refusal(x.ready, env.gate.slots, env.gate.capacity),
                            id, m, password, reply, x, ViewOf(r))
      ensures forall q: array<Byte> :: allocated(q) && fresh(q) ==> q == ContentOf(r) || IsZero(q)
    {
      var now, next := JudgeStep(me, id, m, password, reply, x);
      ghost var judged := stores.w;
      LeadsTrans(start, old(stores.w), judged);
      LeadsOn(start, judged);
      r := AfterJudge(me, id, m, password, reply, now, next, x, ring);
      LeadsTrans(start, judged, stores.w);
      if Undisturbed(x.gap) && Still(start, old(stores.w)) {
        SeenFrom(start, judged, stores.w, ring, kdf, Refusal(x.ready, env.gate.slots, env.gate.capacity),
                 id, m, password, reply, x, ViewOf(r));
      }
    }

    method AfterJudge(me: Client, id: Id, m: Row, password: Bytes, reply: Fetch, now: int,
                      next: Option<Pc>, x: ReadScript,
                      ghost ring: Ring)
      returns (r: Result<ReadResult, ServiceError>)
      requires Reachable(stores.w) && ForeignGaps(me, x.gap) && x.slip <= stores.w.cfg.slack
      requires env.Valid() && ring == env.Value() && Place(stores.w, me) == next
      requires next == if m.expiresAt <= now || reply.FetchFailed? then None
                       else if reply.Missing? then Some(MarkingUnavailable(id, m, now))
                       else if m.isProtected && password == [] then None
                       else Some(Opening(id, m, reply.rec, password))
      modifies stores, env.gate
      ensures env.Valid() && env.gate.slots == old(env.gate.slots)
      ensures Leads(old(stores.w), stores.w) && me !in stores.w.pcs
      ensures r.Ok? ==> Reported(r.value, m, password)
      ensures ContentOf(r) != null ==> LastServed(stores.w, id, m, ContentOf(r)[..])
      ensures Undisturbed(x.gap) && now == old(stores.w).clock ==>
                SeenOutcome(old(stores.w), stores.w, ring, kdf, Refusal(x.ready, env.gate.slots, env.gate.capacity),
                            id, m, password, reply, x, ViewOf(r))
      ensures forall q: array<Byte> :: allocated(q) && fresh(q) ==> q == ContentOf(r) || IsZero(q)
    {
      if next.Some? && next.value.Opening? {
        r := Unlock(me, id, m, reply.rec, password, x, ring);
      } else {
        r := Conclude(me, id, m, password, reply, now, x);
      }
    }

    /** A Read that has nothing to decrypt: expired, missing, unreadable or locked. */
    method Conclude(me: Client, id: Id, m: Row, password: Bytes, reply: Fetch, now: int, x: ReadScript)
      returns (r: Result<ReadResult, ServiceError>)
      requires Reachable(stores.w) && ForeignGaps(me, x.gap) && x.slip <= stores.w.cfg.slack
      requires m.expiresAt <= now || reply.Found? ==> me !in stores.w.pcs
      requires m.expiresAt <= now || !reply.Found? || (m.isProtected && password == [])
      requires now < m.expiresAt && reply.Missing? ==> Place(stores.w, me) == Some(MarkingUnavailable(id, m, now))
      requires now < m.expiresAt && reply.FetchFailed? ==> me !in stores.w.pcs
      modifies stores
      ensures Leads(old(stores.w), stores.w) && me !in stores.w.pcs
      ensures r.Ok? ==> Reported(r.value, m, password) && r.value.content.None?
      ensures r == if m.expiresAt <= now then Ok(ReadResult(m, Expired, !m.isProtected, None))
                   else if reply.FetchFailed? then Err(BodyUnreadable)
                   else Ok(ReadResult(m, if reply.Missing? then Unavailable else Active, !m.isProtected, None))
      ensures Undisturbed(x.gap) && now == old(stores.w).clock && now < m.expiresAt && reply.Missing?
              && x.markFate.Lands? ==>
                MarkedOnce(old(stores.w), stores.w, id, m.expiresAt - now, x.slip)
      ensures forall q: array<Byte> :: allocated(q) && fresh(q) ==> IsZero(q)
    {
      LeadsRefl(stores.w);
      var res := ReadResult(m, Active, !m.isProtected, None);
      if m.expiresAt <= now {
        return Ok(res.(status := Expired));
      }
      if reply.Missing? {
        ReportUnavailable(me, id, m, now, x);
        return Ok(res.(status := Unavailable));
      }
      if reply.FetchFailed? {
        return Err(BodyUnreadable);
      }
      return Ok(res);
    }

    method Unlock(me: Client, id: Id, m: Row, rec: EncryptedBody, password: Bytes, x: ReadScript, ghost ring: Ring)
      returns (r: Result<ReadResult, ServiceError>)
      requires ForeignGaps(me, x.gap) && Place(stores.w, me) == Some(Opening(id, m, rec, password))
      requires env.Valid() && ring == env.Value()
      modifies stores, env.gate
      ensures env.Valid() && env.gate.slots == old(env.gate.slots)
      ensures Leads(old(stores.w), stores.w) && me !in stores.w.pcs
      ensures r.Ok? ==> Reported(r.value, m, password) && r.value.status != Unavailable
      ensures ContentOf(r) != null ==> LastServed(stores.w, id, m, ContentOf(r)[..])
      ensures Undisturbed(x.gap) && old(stores.w).clock < m.expiresAt ==>
                && ViewOf(r) == Unlocked(m, OpenValue(ring, kdf, Refusal(x.ready, env.gate.slots, env.gate.capacity),
                                                      id, m.expiresAt, rec, password))
                && ReadLeaves(old(stores.w), stores.w, id, m, x, ViewOf(r))
      ensures forall q: array<Byte> :: allocated(q) && fresh(q) ==> q == ContentOf(r) || IsZero(q)
    {
      var released, body := OpenBody(me, id, m, rec, password, x, ring);
      if released.Err? {
        r := Err(released.error);
      } else if released.value {
        r := Ok(ReadResult(m, Active, true, Some(body)));
      } else {
        r := Ok(ReadResult(m, Expired, !m.isProtected, None));
      }
    }

    /** The first clock reading decides whether there is anything to fetch. */
    method CheckStatus(me: Client, id: Id, m: Row, password: Bytes, x: ReadScript) returns (status: Status)
      requires ForeignGaps(me, x.gap) && Place(stores.w, me) == Some(ReadTiming(id, m, password))
      modifies stores
      ensures Leads(old(stores.w), stores.w)
      ensures Place(stores.w, me) == if status == Active then Some(Fetching(id, m, password)) else None
      ensures status == Deleted <==> m.deletedAt.Some?
      ensures Undisturbed(x.gap) ==> && status == StatusOf(m, old(stores.w).clock)
                                     && Still(old(stores.w), stores.w)
      ensures forall q: array<Byte> :: allocated(q) && fresh(q) ==> IsZero(q)
    {
      stores.Others(me, x.gap(0));
      LeadsRead(old(stores.w), stores.w, me, Now);
      status := StatusOf(m, stores.w.clock);
      stores.Move(me, if status == Active then Some(Fetching(id, m, password)) else None);
    }

    method CheckAndFetch(me: Client, id: Id, m: Row, password: Bytes, x: ReadScript)
      returns (status: Status, reply: Fetch)
      requires Reachable(stores.w) && ForeignGaps(me, x.gap) && Place(stores.w, me) == Some(ReadTiming(id, m, password))
      requires x.answer.Planted? ==> Plantable(stores.w.book, x.answer.rec)
      modifies stores
      ensures Leads(old(stores.w), stores.w) && Reachable(stores.w) && stores.w.cfg == old(stores.w).cfg
      ensures Place(stores.w, me) == if status == Active then Some(Fetched(id, m, password, reply)) else None
      ensures status == Deleted <==> m.deletedAt.Some?
      ensures Undisturbed(x.gap) ==>
                && status == StatusOf(m, old(stores.w).clock)
                && (status == Active && x.answer.Honest? ==> reply == FetchOf(old(stores.w), id, x.answer.fate))
                && Still(old(stores.w), stores.w)
      ensures forall q: array<Byte> :: allocated(q) && fresh(q) ==> IsZero(q)
    {
      status := CheckStatus(me, id, m, password, x);
      reply := Missing;
      ghost var active := stores.w;
      LeadsOn(old(stores.w), active);
      if status == Active {
        if x.answer.Planted? {
          PlantableOn(old(stores.w), active, x.answer.rec);
        }
        reply := Fetch(me, id, m, password, x);
        LeadsOn(active, stores.w);
        LeadsTrans(old(stores.w), active, stores.w);
      }
    }

    /** From a loaded row on, as part of a run from `start`. */
    method ReadRow(me: Client, id: Id, m: Row, password: Bytes, x: ReadScript, ghost ring: Ring, ghost start: World)
      returns (r: Result<ReadResult, ServiceError>)
      requires Reachable(start) && Leads(start, stores.w) && ForeignGaps(me, x.gap) && x.slip <= start.cfg.slack
      requires env.Valid() && ring == env.Value() && Place(stores.w, me) == Some(ReadTiming(id, m, password))
      requires x.answer.Planted? ==> Plantable(stores.w.book, x.answer.rec)
      requires Still(start, stores.w)
      modifies stores, env.gate
      ensures env.Valid() && env.gate.slots == old(env.gate.slots)
      ensures Leads(start, stores.w) && me !in stores.w.pcs
      ensures r.Ok? ==> Reported(r.value, m, password)
      ensures ContentOf(r) != null ==> LastServed(stores.w, id, m, ContentOf(r)[..])
      ensures m.deletedAt.Some? ==> r == Ok(ReadResult(m, Deleted, !m.isProtected, None))
      ensures Undisturbed(x.gap) && x.answer.Honest? ==>
                ReadOutcome(start, stores.w, ring, kdf, Refusal(x.ready, env.gate.slots, env.gate.capacity),
                            id, m, password, x, ViewOf(r))
      ensures forall q: array<Byte> :: allocated(q) && fresh(q) ==> q == ContentOf(r) || IsZero(q)
    {
      LeadsOn(start, stores.w);
      var status, reply := CheckAndFetch(me, id, m, password, x);
      LeadsTrans(start, old(stores.w), stores.w);
      r := AfterCheck(me, id, m, password, status, reply, x, ring, start);
    }

    method AfterCheck(me: Client, id: Id, m: Row, password: Bytes, status: Status, reply: Fetch, x: ReadScript,
                      ghost ring: Ring, ghost start: World)
      returns (r: Result<ReadResult, ServiceError>)
      requires Reachable(start) && Leads(start, stores.w) && ForeignGaps(me, x.gap) && x.slip <= start.cfg.slack
      requires env.Valid() && ring == env.Value() && (status == Deleted <==> m.deletedAt.Some?)
      requires Place(stores.w, me) == if status == Active then Some(Fetched(id, m, password, reply)) else None
      requires Undisturbed(x.gap) && x.answer.Honest? ==>
                 && Still(start, stores.w) && status == StatusOf(m, start.clock)
                 && (status == Active ==> reply == FetchOf(start, id, x.answer.fate))
      modifies stores, env.gate
      ensures env.Valid() && env.gate.slots == old(env.gate.slots)
      ensures Leads(start, stores.w) && me !in stores.w.pcs
      ensures r.Ok? ==> Reported(r.value, m, password)
      ensures ContentOf(r) != null ==> LastServed(stores.w, id, m, ContentOf(r)[..])
      ensures m.deletedAt.Some? ==> r == Ok(ReadResult(m, Deleted, !m.isProtected, None))
      ensures Undisturbed(x.gap) && x.answer.Honest? ==>
                ReadOutcome(start, stores.w, ring, kdf, Refusal(x.ready, env.gate.slots, env.gate.capacity),
                            id, m, password, x, ViewOf(r))
      ensures forall q: array<Byte> :: allocated(q) && fresh(q) ==> q == ContentOf(r) || IsZero(q)
    {
      ghost var refusal := Refusal(x.ready, env.gate.slots, env.gate.capacity);
      if status != Active {
        r := Ok(ReadResult(m, status, !m.isProtected, None));
        if Undisturbed(x.gap) && x.answer.Honest? {
          ShutIsRead(start, stores.w, ring, kdf, refusal, id, m, password, x);
        }
        return;
      }
      r := AfterFetch(me, id, m, password, reply, x, ring, start);
      if Undisturbed(x.gap) && x.answer.Honest? {
        SeenIsRead(start, stores.w, ring, kdf, refusal, id, m, password, reply, x, ViewOf(r));
      }
    }

    method Begin(me: Client, id: Id, password: Bytes, fate: Fate) returns (m: Option<Row>)
      requires me !in stores.w.pcs
      modifies stores
      ensures m.Some? <==> fate.Lands? && id in old(stores.w).rows
      ensures m.None? ==> stores.w == old(stores.w)
      ensures m.Some? ==> && m.value == old(stores.w).rows[id]
                          && Still(old(stores.w), stores.w)
                          && Leads(old(stores.w), stores.w) && stores.w.book == old(stores.w).book
                          && Place(stores.w, me) == Some(ReadTiming(id, m.value, password))
      ensures forall q: array<Byte> :: allocated(q) && fresh(q) ==> IsZero(q)
    {
      m := stores.Load(id, fate);
      if m.Some? {
        LeadsRefl(stores.w);
        LeadsStep(stores.w, stores.w, Do(me, BeginRead(id, password, fate)));
        stores.Move(me, Some(ReadTiming(id, m.value, password)));
        assert stores.w == Next(old(stores.w), Do(me, BeginRead(id, password, fate)));
      }
    }

    /** Read.  Whatever the body store answers and whatever others do in between, content comes
        back only as the canonical bytes of that paste's Create, with the hash of the row
        loaded, while the last clock reading was before its expiry; every other buffer made on
        the way is zero on every exit.  A paste deleted before the call yields no content.
        Undisturbed and with an honest store the result is ReadValue. */
    method Read(me: Client, id: Id, password: Bytes, x: ReadScript) returns (r: Result<ReadResult, ServiceError>)
      requires Reachable(stores.w) && ForeignGaps(me, x.gap) && x.slip <= stores.w.cfg.slack && env.Valid()
      requires me !in stores.w.pcs && (x.answer.Planted? ==> Plantable(stores.w.book, x.answer.rec))
      modifies stores, env.gate
      ensures env.Valid() && env.Value() == old(env.Value()) && env.gate.slots == old(env.gate.slots)
      ensures Leads(old(stores.w), stores.w) && me !in stores.w.pcs
      ensures !(x.loadFate.Lands? && id in old(stores.w).rows) ==>
                r == Err(if x.loadFate.Lands? then NotFound else RowUnreadable) && stores.w == old(stores.w)
      ensures r.Ok? ==> id in old(stores.w).rows && Reported(r.value, old(stores.w).rows[id], password)
      ensures ContentOf(r) != null ==> OwnContent(stores.w, id, r.value.meta, ContentOf(r)[..])
      ensures Tombstoned(old(stores.w), id) ==> ContentOf(r) == null && (r.Ok? ==> r.value.status == Deleted)
      ensures x.loadFate.Lands? && id in old(stores.w).rows && Undisturbed(x.gap) && x.answer.Honest? ==>
                ReadOutcome(old(stores.w), stores.w, env.Value(), kdf,
                            Refusal(x.ready, env.gate.slots, env.gate.capacity),
                            id, old(stores.w).rows[id], password, x, ViewOf(r))
      ensures forall q: array<Byte> :: allocated(q) && fresh(q) ==> q == ContentOf(r) || IsZero(q)
    {
      LeadsRefl(stores.w);
      var m := Begin(me, id, password, x.loadFate);
      if m.None? {
        return Err(if x.loadFate.Lands? then NotFound else RowUnreadable);
      }
      r := ReadRow(me, id, m.value, password, x, env.Value(), old(stores.w));
      LeadsOn(old(stores.w), stores.w);
      if ContentOf(r) != null {
        ServedIsOwn(stores.w, id, m.value, ContentOf(r)[..]);
      }
    }

    // --- Delete ----------------------------------------------------------------------------

    /** From an authorised, loaded row on: None when it is already over. */
    method CheckDeletable(me: Client, id: Id, m: Row, who: Principal, x: DeleteScript) returns (at: Option<int>)
      requires ForeignGaps(me, x.gap) && Place(stores.w, me) == Some(DeleteTiming(id, m, who))
      modifies stores
      ensures Leads(old(stores.w), stores.w)
      ensures Place(stores.w, me) == if at.Some? then Some(DeletingBody(id, who, at.value)) else None
      ensures at.Some? ==> at.value == stores.w.clock && StatusOf(m, at.value) == Active
      ensures at.None? ==> StatusOf(m, stores.w.clock) != Active
      ensures Undisturbed(x.gap) ==> Still(old(stores.w), stores.w)
    {
      stores.Others(me, x.gap(0));
      LeadsDelete(old(stores.w), stores.w, me, Now);
      var now := stores.w.clock;
      if m.deletedAt.Some? || m.expiresAt <= now {
        stores.Move(me, None);
        return None;
      }
      stores.Move(me, Some(DeletingBody(id, who, now)));
      return Some(now);
    }

    method DeleteBody(me: Client, id: Id, who: Principal, at: int, x: DeleteScript) returns (ok: bool)
      requires ForeignGaps(me, x.gap) && Place(stores.w, me) == Some(DeletingBody(id, who, at))
      modifies stores
      ensures Leads(old(stores.w), stores.w)
      ensures Place(stores.w, me) == if ok then Some(MarkingDeleted(id, who, at)) else None
      ensures ok ==> id !in stores.w.bodies
      ensures ok <==> x.bodyFate.Lands?
      ensures Undisturbed(x.gap) && ok ==>
                Leaves(old(stores.w), stores.w, old(stores.w).rows, old(stores.w).bodies - {id}, [])
    {
      stores.Others(me, x.gap(1));
      LeadsDelete(old(stores.w), stores.w, me, Call(x.bodyFate, 0));
      ghost var before := stores.w;
      ok := stores.Delete(id, x.bodyFate);
      DroppedIsDropBody(before, stores.w, id, x.bodyFate);
      stores.Move(me, if ok then Some(MarkingDeleted(id, who, at)) else None);
    }

    /** The mark: it takes unless the row is marked already or purged. */
    method MarkRow(me: Client, id: Id, who: Principal, at: int, x: DeleteScript) returns (ok: bool)
      requires ForeignGaps(me, x.gap) && Place(stores.w, me) == Some(MarkingDeleted(id, who, at))
      modifies stores
      ensures Leads(old(stores.w), stores.w)
      ensures Place(stores.w, me) == if ok then Some(NotingDelete(id)) else None
      ensures ok && id in stores.w.rows ==> stores.w.rows[id].deletedAt.Some?
      ensures ok <==> x.markFate.Lands?
      ensures Undisturbed(x.gap) && ok ==>
                Leaves(old(stores.w), stores.w, MarkDeleted(old(stores.w).rows, id, who.user, at), old(stores.w).bodies,
                       [])
    {
      stores.Others(me, x.gap(2));
      LeadsDelete(old(stores.w), stores.w, me, Call(x.markFate, 0));
      ghost var before := stores.w;
      ok := stores.MarkRowDeleted(id, who.user, at, x.markFate);
      assert stores.w.rows == if x.markFate.Fails? then before.rows else MarkDeleted(before.rows, id, who.user, at);
      stores.Move(me, if ok then Some(NotingDelete(id)) else None);
    }

    method NoteDeleted(me: Client, id: Id, gap: seq<Step>)
      requires Foreign(me, gap) && Place(stores.w, me) == Some(NotingDelete(id))
      modifies stores
      ensures Leads(old(stores.w), stores.w) && me !in stores.w.pcs && LastEvent(stores.w, PasteDeleted(id))
      ensures gap == [] ==> Leaves(old(stores.w), stores.w, old(stores.w).rows, old(stores.w).bodies,
                                   [PasteDeleted(id)])
    {
      stores.Others(me, gap);
      LeadsDelete(old(stores.w), stores.w, me, Note);
      stores.Record(PasteDeleted(id));
      stores.Move(me, None);
    }

    /** From an authorised, loaded row on. */
    method DeleteRow(me: Client, id: Id, m: Row, who: Principal, x: DeleteScript)
      returns (err: Option<ServiceError>, ghost over: bool)
      requires Reachable(stores.w) && ForeignGaps(me, x.gap) && id in stores.w.book.born
      requires Place(stores.w, me) == Some(DeleteTiming(id, m, who))
      modifies stores
      ensures Leads(old(stores.w), stores.w) && me !in stores.w.pcs
      ensures err.None? && !over ==>
                Tombstoned(stores.w, id) && BodyGone(stores.w, id) && LastEvent(stores.w, PasteDeleted(id))
      ensures over ==> StatusOf(m, stores.w.clock) != Active
      ensures err.Some? ==> err.value == BodyNotDeleted || err.value == RowNotMarked
      ensures Undisturbed(x.gap) && x.bodyFate.Lands? && x.markFate.Lands? ==>
                err.None? && DeleteOutcome(old(stores.w), stores.w, id, m, who, over)
    {
      var at := CheckDeletable(me, id, m, who, x);
      over := at.None?;
      if at.None? {
        return None, over;
      }
      ghost var checked := stores.w;
      BornOn(old(stores.w), checked, id);
      err := DeleteBoth(me, id, who, at.value, x);
      LeadsTrans(old(stores.w), checked, stores.w);
    }

    /** The body, then the mark, then the event. */
    method DeleteBoth(me: Client, id: Id, who: Principal, at: int, x: DeleteScript) returns (err: Option<ServiceError>)
      requires Reachable(stores.w) && ForeignGaps(me, x.gap) && id in stores.w.book.born
      requires Place(stores.w, me) == Some(DeletingBody(id, who, at))
      modifies stores
      ensures Leads(old(stores.w), stores.w) && me !in stores.w.pcs
      ensures err.None? ==> Tombstoned(stores.w, id) && BodyGone(stores.w, id) && LastEvent(stores.w, PasteDeleted(id))
      ensures err.Some? ==> err.value == BodyNotDeleted || err.value == RowNotMarked
      ensures err.None? <==> x.bodyFate.Lands? && x.markFate.Lands?
      ensures Undisturbed(x.gap) && err.None? ==>
                Leaves(old(stores.w), stores.w, MarkDeleted(old(stores.w).rows, id, who.user, at),
                       old(stores.w).bodies - {id},
                       [PasteDeleted(id)])
    {
      var ok := DeleteBody(me, id, who, at, x);
      if !ok {
        return Some(BodyNotDeleted);
      }
      ghost var cleared := stores.w;
      ok := MarkRow(me, id, who, at, x);
      LeadsTrans(old(stores.w), cleared, stores.w);
      if !ok {
        return Some(RowNotMarked);
      }
      ghost var marked := stores.w;
      NoteDeleted(me, id, x.gap(3));
      LeadsTrans(old(stores.w), marked, stores.w);
      DeletionIsFinal(old(stores.w), cleared, marked, stores.w, id);
      return None;
    }

    /** Delete.  Only the owner or an administrator gets past the load; success means that the
        paste was over already, or that its row is marked (or purged since) and its body is
        gone, both for good, and the event is recorded last.  Undisturbed and with its calls
        landing it succeeds, and changes just that row, that body and the log. */
    method Delete(me: Client, who: Principal, id: Id, x: DeleteScript)
      returns (err: Option<ServiceError>, ghost over: bool)
      requires Reachable(stores.w) && ForeignGaps(me, x.gap) && me !in stores.w.pcs
      modifies stores
      ensures Leads(old(stores.w), stores.w) && me !in stores.w.pcs
      ensures !(x.loadFate.Lands? && id in old(stores.w).rows) ==>
                err == Some(if x.loadFate.Lands? then NotFound else RowUnreadable) && stores.w == old(stores.w)
      ensures x.loadFate.Lands? && id in old(stores.w).rows ==>
                (err == Some(Forbidden) <==> old(stores.w).rows[id].owner != who.user && !who.isAdmin)
      ensures err == Some(Forbidden) ==> stores.w == old(stores.w)
      ensures err.None? && !over ==>
                Tombstoned(stores.w, id) && BodyGone(stores.w, id) && LastEvent(stores.w, PasteDeleted(id))
      ensures over ==> id in old(stores.w).rows && StatusOf(old(stores.w).rows[id], stores.w.clock) != Active
      ensures x.loadFate.Lands? && id in old(stores.w).rows && err != Some(Forbidden)
              && Undisturbed(x.gap) && x.bodyFate.Lands? && x.markFate.Lands? ==>
                err.None? && DeleteOutcome(old(stores.w), stores.w, id, old(stores.w).rows[id], who, over)
    {
      over := false;
      LeadsRefl(stores.w);
      var m := stores.Load(id, x.loadFate);
      if m.None? {
        return Some(if x.loadFate.Lands? then NotFound else RowUnreadable), false;
      }
      if m.value.owner != who.user && !who.isAdmin {
        return Some(Forbidden), false;
      }
      LeadsStep(stores.w, stores.w, Do(me, BeginDelete(id, who, x.loadFate)));
      stores.Move(me, Some(DeleteTiming(id, m.value, who)));
      assert stores.w == Next(old(stores.w), Do(me, BeginDelete(id, who, x.loadFate)));
      ghost var begun := stores.w;
      LeadsOn(old(stores.w), begun);
      RowsWereBorn(begun, id);
      err, over := DeleteRow(me, id, m.value, who, x);
      LeadsTrans(old(stores.w), begun, stores.w);
    }

    // --- Together --------------------------------------------------------------------------

    /** Once Delete has reported success on a paste that was not over, no later Read returns
        its content, whatever happens in between. */
    method DeleteThenRead(me: Client, who: Principal, id: Id, x: DeleteScript, between: seq<Step>, password: Bytes,
                          y: ReadScript)
      returns (err: Option<ServiceError>, r: Result<ReadResult, ServiceError>, ghost over: bool)
      requires Reachable(stores.w) && ForeignGaps(me, x.gap) && ForeignGaps(me, y.gap) && Foreign(me, between)
               && env.Valid()
      requires me !in stores.w.pcs && y.slip <= stores.w.cfg.slack
      requires y.answer.Planted? ==> Plantable(stores.w.book, y.answer.rec)
      modifies stores, env.gate
      ensures err.None? && !over ==> ContentOf(r) == null
      ensures over ==> id in old(stores.w).rows && old(stores.w).rows[id].deletedAt.None? ==>
                old(stores.w).rows[id].expiresAt <= stores.w.clock
    {
      err, over := Delete(me, who, id, x);
      ghost var deleted := stores.w;
      LeadsOn(old(stores.w), deleted);
      stores.Others(me, between);
      LeadsOn(deleted, stores.w);
      LeadsTrans(old(stores.w), deleted, stores.w);
      if y.answer.Planted? {
        PlantableOn(old(stores.w), stores.w, y.answer.rec);
      }
      if err.None? && !over {
        StaysTombstoned(deleted, stores.w, id);
      }
      ghost var later := stores.w;
      r := Read(me, id, password, y);
      ClockOn(deleted, later);
      ClockOn(later, stores.w);
    }

    method Wait(me: Client, elapsed: nat)
      requires Reachable(stores.w)
      modifies stores
      ensures stores.w == old(stores.w).(clock := old(stores.w).clock + elapsed) && Reachable(stores.w)
    {
      stores.Others(me, [Tick(elapsed)]);
      RunSingle(old(stores.w), Tick(elapsed));
      LeadsOn(old(stores.w), stores.w);
    }

    /** An undisturbed Create leaves a paste that can be read until its stored expiry. */
    method CreateReadable(me: Client, p: Principal, content: Bytes, password: Bytes, ttlSeconds: int, id: Id,
                          x: CreateScript, ghost elapsed: nat, ghost ring: Ring, ghost refusal: Option<KdfError>)
      returns (r: Result<Row, ServiceError>)
      requires Reachable(stores.w) && env.Valid() && ring == env.Value() && me !in stores.w.pcs
               && id !in stores.w.book.issued
      requires Undisturbed(x.gap) && x.slip <= stores.w.cfg.slack && x.putFate.Lands? && x.insertFate.Lands?
      requires x.draws.dek.Some? && x.draws.nonce.Some? && x.draws.wrapNonce.Some?
      requires password != [] ==> x.draws.salt.Some? && x.ready.SlotFree? && env.gate.slots < env.gate.capacity
      requires password != [] ==> refusal.None?
      modifies stores, env.gate
      ensures env.Valid() && env.Value() == ring && env.gate.slots == old(env.gate.slots)
      ensures Reachable(stores.w) && stores.w.cfg == old(stores.w).cfg && me !in stores.w.pcs
      ensures ReadsBack(old(stores.w), stores.w.(clock := stores.w.clock + elapsed), ring, kdf, refusal,
                        content, password, ttlSeconds, id, elapsed, r)
    {
      r := Create(me, p, content, password, ttlSeconds, id, x);
      LeadsOn(old(stores.w), stores.w);
      CreatedReadsBack(old(stores.w), stores.w, ring, kdf, Refusal(x.ready, env.gate.slots, env.gate.capacity), refusal,
                       p, content, password, ttlSeconds, id, x, r, elapsed);
    }

    method CreateThenWait(me: Client, p: Principal, content: Bytes, password: Bytes, ttlSeconds: int, id: Id,
                          x: CreateScript, elapsed: nat, ghost ring: Ring, ghost refusal: Option<KdfError>)
      returns (r: Result<Row, ServiceError>)
      requires Reachable(stores.w) && env.Valid() && ring == env.Value() && me !in stores.w.pcs
               && id !in stores.w.book.issued
      requires Undisturbed(x.gap) && x.slip <= stores.w.cfg.slack && x.putFate.Lands? && x.insertFate.Lands?
      requires x.draws.dek.Some? && x.draws.nonce.Some? && x.draws.wrapNonce.Some?
      requires password != [] ==> x.draws.salt.Some? && x.ready.SlotFree? && env.gate.slots < env.gate.capacity
      requires password != [] ==> refusal.None?
      modifies stores, env.gate
      ensures env.Valid() && env.Value() == ring && env.gate.slots == old(env.gate.slots)
      ensures Reachable(stores.w) && stores.w.cfg == old(stores.w).cfg && me !in stores.w.pcs
      ensures ReadsBack(old(stores.w), stores.w, ring, kdf, refusal, content, password, ttlSeconds, id, elapsed, r)
    {
      r := CreateReadable(me, p, content, password, ttlSeconds, id, x, elapsed, ring, refusal);
      Wait(me, elapsed);
    }

    /** The round trip: an accepted paste whose lifetime the table admits, created and then read
        with the same password any time before its stored expiry, comes back as exactly its
        canonical bytes. */
    method CreateThenRead(me: Client, p: Principal, content: Bytes, password: Bytes, ttlSeconds: int, id: Id,
                          x: CreateScript, elapsed: nat, y: ReadScript)
      returns (r: Result<Row, ServiceError>, got: Result<ReadResult, ServiceError>)
      requires Reachable(stores.w) && env.Valid() && me !in stores.w.pcs && id !in stores.w.book.issued
      requires Undisturbed(x.gap) && x.slip <= stores.w.cfg.slack && x.putFate.Lands? && x.insertFate.Lands?
      requires x.draws.dek.Some? && x.draws.nonce.Some? && x.draws.wrapNonce.Some?
      requires Undisturbed(y.gap) && y.slip <= stores.w.cfg.slack && y.loadFate.Lands? && y.answer == Honest(Lands)
      requires password != [] ==> && x.draws.salt.Some? && x.ready.SlotFree? && y.ready.SlotFree?
                                  && env.gate.slots < env.gate.capacity
      modifies stores, env.gate
      ensures var checked := CheckInput(old(stores.w).cfg.limits, content, password, ttlSeconds);
              checked.Ok? && 1 <= ChosenTtl(old(stores.w).cfg.limits, ttlSeconds) <= TTL_MAX ==>
                && r.Ok?
                && (old(stores.w).clock + elapsed < Coarsen(old(stores.w).cfg.grain, r.value.expiresAt) ==>
                      ContentOf(got) != null && ContentOf(got)[..] == checked.value && got.value.status == Active)
    {
      r := CreateThenWait(me, p, content, password, ttlSeconds, id, x, elapsed, env.Value(),
                          Refusal(y.ready, env.gate.slots, env.gate.capacity));
      got := Read(me, id, password, y);
    }
  }

  /** No time has passed; the tables are these and these events were recorded. */
  predicate Leaves(w: World, t: World, rows: Table, bodies: map<Id, Body>, events: seq<Event>) {
    && t.cfg == w.cfg && t.clock == w.clock && t.markers == w.markers && t.epoch == w.epoch
    && t.rows == rows && t.bodies == bodies && t.log == w.log + events
  }

  /** Only clients have moved. */
  predicate Still(w: World, t: World) {
    SameStores(w, t) && t.markers == w.markers && t.log == w.log
  }

  predicate LastEvent(w: World, e: Event) {
    |w.log| > 0 && w.log[|w.log| - 1] == e
  }

  /** A body written now for the time that remains. */
  function StoredBody(clock: int, rec: EncryptedBody, remaining: int, slip: nat): Body {
    Body(rec, Some(clock + (if remaining < MILLISECOND then MILLISECOND else remaining) - slip))
  }

  /** The row, the body for what remains of its lifetime and the event are there, and no more. */
  predicate Stocked(w: World, t: World, id: Id, m: Row, rec: EncryptedBody, slip: nat) {
    Leaves(w, t, w.rows[id := Stored(w.cfg.grain, m)],
           w.bodies[id := StoredBody(w.clock, rec, m.expiresAt - w.clock, slip)], [PasteCreated(id)])
  }

  /** A row remembers the key its body is wrapped with, unless a password wraps it. */
  function Wrapped(m: Row, rec: EncryptedBody): Row {
    if m.isProtected then m else m.(kekId := rec.kekId)
  }

  function MapSealed(r: Result<EncryptedBody, EnvelopeError>): Result<EncryptedBody, ServiceError> {
    match r
    case Ok(rec) => Ok(rec)
    case Err(e) => Err(SealFailed(e))
  }

  /** What an accepted Create comes to when nobody interferes and its calls land: it fails when
      Seal does, and otherwise succeeds exactly for lifetimes the table admits. */
  ghost predicate CreateOutcome(w: World, t: World, ring: Ring, kdf: KdfFunction, refusal: Option<KdfError>,
                                p: Principal, password: Bytes, ttlSeconds: int, id: Id, canonical: Bytes,
                                x: CreateScript, r: Result<Row, ServiceError>)
    requires ValidRing(ring)
  {
    var ttl := ChosenTtl(w.cfg.limits, ttlSeconds);
    var m := NewRow(p.user, w.clock, ttl, canonical, password != []);
    var sealed := SealValue(ring, kdf, refusal, id, m.expiresAt, canonical, password, x.draws);
    && (sealed.Err? ==> r == Err(SealFailed(sealed.error)))
    && (Undisturbed(x.gap) && x.putFate.Lands? && x.insertFate.Lands? && sealed.Ok? ==>
          && (r.Ok? <==> 1 <= ttl <= TTL_MAX)
          && (r.Ok? ==> r.value == Wrapped(m, sealed.value) && Stocked(w, t, id, r.value, sealed.value, x.slip)))
  }

  /** The same from the canonical buffer on, with Seal's result given. */
  ghost predicate StoreOutcome(w: World, t: World, sealed: Result<EncryptedBody, EnvelopeError>, id: Id, m: Row,
                               x: CreateScript, r: Result<Row, ServiceError>)
  {
    && (sealed.Err? ==> r == Err(SealFailed(sealed.error)))
    && (Undisturbed(x.gap) && x.putFate.Lands? && x.insertFate.Lands? && sealed.Ok? ==>
          && (r.Ok? <==> w.clock < m.expiresAt && Insertable(w.rows, id, m))
          && (r.Ok? ==> r.value == Wrapped(m, sealed.value) && Stocked(w, t, id, r.value, sealed.value, x.slip)))
  }

  lemma StoreFrom(w: World, u: World, t: World, rec: EncryptedBody, id: Id, m: Row, x: CreateScript,
                  r: Result<Row, ServiceError>)
    requires Undisturbed(x.gap) ==> Still(w, u)
    requires var kept := Wrapped(m, rec);
             && (r.Ok? ==> r.value == kept)
             && (Undisturbed(x.gap) && x.putFate.Lands? && x.insertFate.Lands? ==>
                   && (r.Ok? <==> u.clock < kept.expiresAt && Insertable(u.rows, id, kept))
                   && (r.Ok? ==> Stocked(u, t, id, kept, rec, x.slip)))
    ensures StoreOutcome(w, t, Ok(rec), id, m, x, r)
  {
  }

  lemma OutcomeFollows(w: World, begun: World, t: World, ring: Ring, kdf: KdfFunction, refusal: Option<KdfError>,
                       p: Principal, password: Bytes, ttlSeconds: int, id: Id, canonical: Bytes,
                       x: CreateScript, r: Result<Row, ServiceError>)
    requires ValidRing(ring) && Still(w, begun) && id !in w.rows
    requires var m := NewRow(p.user, w.clock, ChosenTtl(w.cfg.limits, ttlSeconds), canonical, password != []);
             StoreOutcome(begun, t, SealValue(ring, kdf, refusal, id, m.expiresAt, canonical, password, x.draws), id, m,
                          x, r)
    ensures CreateOutcome(w, t, ring, kdf, refusal, p, password, ttlSeconds, id, canonical, x, r)
  {
  }

  // --- What an undisturbed Read comes to ---------------------------------------------------

  /** A result of Read with its content as bytes. */
  datatype View = View(meta: Row, status: Status, hashVisible: bool, content: Option<Bytes>)

  ghost function ViewOf(r: Result<ReadResult, ServiceError>): Result<View, ServiceError>
    reads ContentOf(r)
  {
    match r
    case Ok(res) => Ok(View(res.meta, res.status, res.hashVisible,
                            if res.content.Some? then Some(res.content.value[..]) else None))
    case Err(e) => Err(e)
  }

  function Unlocked(m: Row, unsealed: Result<Bytes, EnvelopeError>): Result<View, ServiceError> {
    match unsealed
    case Ok(plain) => Ok(View(m, Active, true, Some(plain)))
    case Err(e) => Err(OpenFailed(e))
  }

  /** After this reply of the body store, at this time. */
  function Seen(ring: Ring, kdf: KdfFunction, refusal: Option<KdfError>, id: Id, m: Row, password: Bytes, now: int,
                reply: Fetch)
    : Result<View, ServiceError>
  {
    if m.expiresAt <= now then Ok(View(m, Expired, !m.isProtected, None))
    else
      match reply
      case Missing => Ok(View(m, Unavailable, !m.isProtected, None))
      case FetchFailed => Err(BodyUnreadable)
      case Found(rec) =>
        if m.isProtected && password == [] then Ok(View(m, Active, !m.isProtected, None))
        else Unlocked(m, OpenValue(ring, kdf, refusal, id, m.expiresAt, rec, password))
  }

  /** With this row loaded from these stores. */
  function ReadValue(ring: Ring, kdf: KdfFunction, refusal: Option<KdfError>, id: Id, m: Row, password: Bytes, w: World,
                     fate: Fate)
    : Result<View, ServiceError>
  {
    var status := StatusOf(m, w.clock);
    if status != Active then Ok(View(m, status, !m.isProtected, None))
    else Seen(ring, kdf, refusal, id, m, password, w.clock, FetchOf(w, id, fate))
  }

  function CountedRows(rows: Table, id: Id, fate: Fate): Table {
    if fate.Fails? then rows else IncrementViews(rows, id)
  }

  function ViewEvent(id: Id, m: Row): Event {
    if m.isProtected then UnlockSuccess(id) else PasteViewed(id)
  }

  /** Only markers and the log may differ. */
  predicate SameStores(w: World, t: World) {
    t.cfg == w.cfg && t.clock == w.clock && t.epoch == w.epoch && t.rows == w.rows && t.bodies == w.bodies
  }

  /** The markers once this paste is marked, for an hour past what remains of its lifetime. */
  function MarkedFor(w: World, id: Id, remaining: int, slip: nat): map<Id, int> {
    if id in w.markers then w.markers else w.markers[id := w.clock + (remaining + HOUR) - slip]
  }

  /** The marker stands, and the event is recorded exactly when it did not before. */
  predicate MarkedOnce(w: World, t: World, id: Id, remaining: int, slip: nat) {
    && SameStores(w, t) && t.markers == MarkedFor(w, id, remaining, slip)
    && t.log == w.log + if id in w.markers then [] else [PasteUnavailable(id, w.epoch)]
  }

  /** Released content was counted and recorded; a missing body was marked and reported once. */
  predicate ReadLeaves(w: World, t: World, id: Id, m: Row, x: ReadScript, v: Result<View, ServiceError>) {
    && (v.Ok? && v.value.content.Some? ==>
          Leaves(w, t, CountedRows(w.rows, id, x.countFate), w.bodies, [ViewEvent(id, m)]))
    && (v.Ok? && v.value.status == Unavailable && x.markFate.Lands? ==>
          MarkedOnce(w, t, id, m.expiresAt - w.clock, x.slip))
  }

  /** Result and effects of an undisturbed Read from this reply on. */
  predicate SeenOutcome(w: World, t: World, ring: Ring, kdf: KdfFunction, refusal: Option<KdfError>, id: Id, m: Row,
                        password: Bytes, reply: Fetch, x: ReadScript, v: Result<View, ServiceError>)
  {
    v == Seen(ring, kdf, refusal, id, m, password, w.clock, reply) && ReadLeaves(w, t, id, m, x, v)
  }

  /** And from this row on, with an honest store. */
  predicate ReadOutcome(w: World, t: World, ring: Ring, kdf: KdfFunction, refusal: Option<KdfError>, id: Id, m: Row,
                        password: Bytes, x: ReadScript, v: Result<View, ServiceError>)
    requires x.answer.Honest?
  {
    v == ReadValue(ring, kdf, refusal, id, m, password, w, x.answer.fate) && ReadLeaves(w, t, id, m, x, v)
  }

  /** A step that only moved the client changes neither. */
  lemma SeenFrom(w: World, u: World, t: World, ring: Ring, kdf: KdfFunction, refusal: Option<KdfError>, id: Id, m: Row,
                 password: Bytes, reply: Fetch, x: ReadScript, v: Result<View, ServiceError>)
    requires Still(w, u) && SeenOutcome(u, t, ring, kdf, refusal, id, m, password, reply, x, v)
    ensures SeenOutcome(w, t, ring, kdf, refusal, id, m, password, reply, x, v)
  {
  }

  lemma SeenIsRead(w: World, t: World, ring: Ring, kdf: KdfFunction, refusal: Option<KdfError>, id: Id, m: Row,
                   password: Bytes, reply: Fetch, x: ReadScript, v: Result<View, ServiceError>)
    requires x.answer.Honest? && StatusOf(m, w.clock) == Active && reply == FetchOf(w, id, x.answer.fate)
    requires SeenOutcome(w, t, ring, kdf, refusal, id, m, password, reply, x, v)
    ensures ReadOutcome(w, t, ring, kdf, refusal, id, m, password, x, v)
  {
  }

  lemma ShutIsRead(w: World, t: World, ring: Ring, kdf: KdfFunction, refusal: Option<KdfError>, id: Id, m: Row,
                   password: Bytes, x: ReadScript)
    requires x.answer.Honest? && StatusOf(m, w.clock) != Active
    ensures ReadOutcome(w, t, ring, kdf, refusal, id, m, password, x,
                        Ok(View(m, StatusOf(m, w.clock), !m.isProtected, None)))
  {
  }

  // --- Delete, and the round trip ----------------------------------------------------------

  /** What an undisturbed Delete comes to: nothing for a paste that is over, else just that row
      marked, that body gone and the event recorded. */
  predicate DeleteOutcome(w: World, t: World, id: Id, m: Row, who: Principal, over: bool) {
    if StatusOf(m, w.clock) != Active then over && Still(w, t)
    else !over && Leaves(w, t, MarkDeleted(w.rows, id, who.user, w.clock), w.bodies - {id}, [PasteDeleted(id)])
  }

  /** An undisturbed Read with this password yields these bytes. */
  predicate Readable(w: World, ring: Ring, kdf: KdfFunction, refusal: Option<KdfError>, id: Id, password: Bytes,
                     canonical: Bytes)
  {
    id in w.rows && ReadValue(ring, kdf, refusal, id, w.rows[id], password, w, Lands)
                 == Ok(View(w.rows[id], Active, true, Some(canonical)))
  }

  /** Accepted content with a lifetime the table admits is stored, and readable `elapsed` later
      if its stored expiry is then ahead. */
  predicate ReadsBack(w: World, t: World, ring: Ring, kdf: KdfFunction, refusal: Option<KdfError>, content: Bytes,
                      password: Bytes, ttlSeconds: int, id: Id, elapsed: nat, r: Result<Row, ServiceError>)
  {
    var checked := CheckInput(w.cfg.limits, content, password, ttlSeconds);
    checked.Ok? && 1 <= ChosenTtl(w.cfg.limits, ttlSeconds) <= TTL_MAX ==>
      && r.Ok?
      && (w.clock + elapsed < Coarsen(w.cfg.grain, r.value.expiresAt) ==>
            Readable(t, ring, kdf, refusal, id, password, checked.value))
  }

  /** A record sealed while the gate may refuse opens while it may refuse, if no password needs
      the gate. */
  lemma OpensAgain(ring: Ring, kdf: KdfFunction, sealing: Option<KdfError>, opening: Option<KdfError>, grain: Grain,
                   id: Id, m: Row, plain: Bytes, password: Bytes, d: Draws)
    requires ValidRing(ring) && (password != [] ==> sealing.None? && opening.None?)
    requires SealValue(ring, kdf, sealing, id, m.expiresAt, plain, password, d).Ok?
    ensures OpenValue(ring, kdf, opening, id, Stored(grain, m).expiresAt,
                      SealValue(ring, kdf, sealing, id, m.expiresAt, plain, password, d).value, password) == Ok(plain)
  {
    Reads.StoredExpiryOpens(ring, kdf, grain, id, m, plain, password, d);
  }

  /** A paste that was just stocked reads back as its canonical bytes until its stored expiry. */
  lemma CreatedIsReadable(w: World, t: World, ring: Ring, kdf: KdfFunction, sealing: Option<KdfError>,
                          opening: Option<KdfError>, p: Principal, password: Bytes, ttlSeconds: int,
                          id: Id, canonical: Bytes, x: CreateScript, r: Result<Row, ServiceError>, elapsed: nat)
    requires ValidRing(ring) && r.Ok? && Undisturbed(x.gap) && x.putFate.Lands? && x.insertFate.Lands?
    requires password != [] ==> sealing.None? && opening.None?
    requires CreateOutcome(w, t, ring, kdf, sealing, p, password, ttlSeconds, id, canonical, x, r)
    requires w.clock + elapsed < Coarsen(w.cfg.grain, r.value.expiresAt)
    ensures Readable(t.(clock := t.clock + elapsed), ring, kdf, opening, id, password, canonical)
  {
    var m := NewRow(p.user, w.clock, ChosenTtl(w.cfg.limits, ttlSeconds), canonical, password != []);
    OpensAgain(ring, kdf, sealing, opening, w.cfg.grain, id, m, canonical, password, x.draws);
  }

  lemma CreatedReadsBack(w: World, t: World, ring: Ring, kdf: KdfFunction, sealing: Option<KdfError>,
                         opening: Option<KdfError>, p: Principal, content: Bytes, password: Bytes, ttlSeconds: int,
                         id: Id, x: CreateScript, r: Result<Row, ServiceError>, elapsed: nat)
    requires ValidRing(ring) && Undisturbed(x.gap) && x.putFate.Lands? && x.insertFate.Lands?
    requires x.draws.dek.Some? && x.draws.nonce.Some? && x.draws.wrapNonce.Some?
    requires password != [] ==> x.draws.salt.Some? && sealing.None? && opening.None?
    requires var checked := CheckInput(w.cfg.limits, content, password, ttlSeconds);
             checked.Ok? ==> CreateOutcome(w, t, ring, kdf, sealing, p, password, ttlSeconds, id, checked.value, x, r)
    ensures ReadsBack(w, t.(clock := t.clock + elapsed), ring, kdf, opening, content, password, ttlSeconds, id,
                      elapsed, r)
  {
    var checked := CheckInput(w.cfg.limits, content, password, ttlSeconds);
    if checked.Ok? && r.Ok? && w.clock + elapsed < Coarsen(w.cfg.grain, r.value.expiresAt) {
      CreatedIsReadable(w, t, ring, kdf, sealing, opening, p, password, ttlSeconds, id, checked.value, x, r, elapsed);
    }
  }

  lemma UnbornHasNoRow(w: World, me: Client)
    requires Reachable(w) && me in w.pcs && Bodies.Unborn(w.pcs[me])
    ensures w.pcs[me].id !in w.book.born
  {
    ReachableIsSound(w);
    assert Bodies.PcInv(w.bodies, w.book.born, w.book.issued, w.pcs[me]);
  }

  lemma RowlessUnborn(w: World, id: Id)
    requires Reachable(w) && id !in w.book.born
    ensures id !in w.rows
  {
    ReachableIsSound(w);
  }

  lemma UnissuedHasNoRow(w: World, id: Id)
    requires Reachable(w) && id !in w.book.issued
    ensures id !in w.rows
  {
    ReachableIsSound(w);
  }

  /** What a creator who was told `m` can count on. */
  ghost predicate Created(w: World, id: Id, m: Row, owner: Id, at: int, canonical: Bytes) {
    && id in w.book.made && w.book.made[id] == canonical && m.hash == HashHex(canonical)
    && m.owner == owner && m.createdAt == at && m.expiresAt == at + m.ttlSeconds * SECOND
    && Published(w, id, m)
  }

  lemma StillMade(w: World, t: World, id: Id)
    requires Reachable(w) && Leads(w, t) && id in w.book.made
    ensures id in t.book.made && t.book.made[id] == w.book.made[id]
  {
    LeadsKeeps(w, t);
  }

  /** The paste is on record with the hash and expiry its creator was told. */
  ghost predicate Published(w: World, id: Id, m: Row) {
    && id in w.book.born && w.book.born[id] == Coarsen(w.cfg.grain, m.expiresAt)
    && LastEvent(w, PasteCreated(id))
  }

  lemma StillPublished(start: World, w: World, t: World, id: Id, m: Row)
    requires Reachable(start) && Leads(start, w) && Leads(w, t)
    requires id in w.book.born && w.book.born[id] == Coarsen(w.cfg.grain, m.expiresAt) && LastEvent(t, PasteCreated(id))
    ensures Published(t, id, m)
  {
    LeadsKeeps(start, w);
    LeadsKeeps(w, t);
  }

  /** A client's place after Open came back with these bytes or this error. */
  function Decrypted(id: Id, m: Row, r: Result<Bytes, EnvelopeError>): Option<Pc> {
    if r.Ok? then Some(Opened(id, m, r.value))
    else if r.error.WrongPassword? then Some(NotingFailure(id))
    else None
  }

  lemma OpenMoves(w: World, id: Id, m: Row, rec: EncryptedBody, password: Bytes, key: Bytes,
                  refused: Option<EnvelopeError>)
    ensures ReadEffect(w, Opening(id, m, rec, password), Open(key, refused)) == w
    ensures ReadMove(w, Opening(id, m, rec, password), Open(key, refused))
         == Decrypted(id, m, if refused.Some? then Err(refused.value) else OpenWith(key, id, m.expiresAt, rec))
  {
  }

  /** How a Read that came to a result describes it. */
  predicate Reported(res: ReadResult, m: Row, password: Bytes) {
    && res.meta == m && res.hashVisible == (!m.isProtected || res.content.Some?)
    && (res.content.Some? ==> res.status == Active)
    && (res.content.None? && res.status == Active ==> m.isProtected && password == [])
  }

  /** The buffer a Read hands to its caller. */
  function ContentOf(r: Result<ReadResult, ServiceError>): array?<Byte> {
    if r.Ok? && r.value.content.Some? then r.value.content.value else null
  }

  lemma PlantableOn(w: World, t: World, rec: EncryptedBody)
    requires Reachable(w) && Leads(w, t) && Plantable(w.book, rec)
    ensures Plantable(t.book, rec)
  {
    LeadsKeeps(w, t);
  }

  /** Content released last is the paste's own. */
  lemma ServedIsOwn(w: World, id: Id, m: Row, plain: Bytes)
    requires Reachable(w) && LastServed(w, id, m, plain)
    ensures OwnContent(w, id, m, plain)
  {
    ReachableIsSound(w);
    assert Reads.ServedGenuine(w.book, w.book.served[|w.book.served| - 1]);
  }

  /** The canonical bytes its Create fixed for `id`, matching the hash of the row it was read
      under, which was active at the moment of release. */
  predicate OwnContent(w: World, id: Id, m: Row, content: Bytes) {
    && id in w.book.made && content == w.book.made[id] && m.hash == HashHex(content)
    && StatusOf(m, w.clock) == Active
  }

  /** Open comes down to one wrapping key, or to a refusal before there is any. */
  lemma OpenChoice(ring: Ring, kdf: KdfFunction, refusal: Option<KdfError>, id: Id, expiresAt: int, rec: EncryptedBody,
                   password: Bytes)
    returns (key: Bytes, refused: Option<EnvelopeError>)
    ensures OpenValue(ring, kdf, refusal, id, expiresAt, rec, password)
         == if refused.Some? then Err(refused.value) else OpenWith(key, id, expiresAt, rec)
  {
    key, refused := [], None;
    if !ValidRecord(ring.params, rec) {
      refused := Some(BadRecord);
    } else if rec.wrapMode.WrapKEK? {
      if rec.kekId in ring.keys {
        key := ring.keys[rec.kekId];
      } else {
        refused := Some(KeyUnavailable);
      }
    } else if password == [] {
      refused := Some(PasswordRequired);
    } else if refusal.Some? {
      refused := Some(MapKdfError(refusal.value));
    } else {
      key := kdf(password, rec.kdf.value.salt, rec.kdf.value.costs);
    }
  }

  /** The last thing released in `w` was this content, under this row, before its expiry. */
  predicate LastServed(w: World, id: Id, m: Row, plain: Bytes) {
    var served := w.book.served;
    |served| > 0 && served[|served| - 1] == Served(id, m, plain, w.clock) && w.clock < m.expiresAt
  }

  /** A step of a Read continues a run. */
  lemma LeadsRead(start: World, w: World, me: Client, a: Action)
    requires Leads(start, w) && me in w.pcs && ReadPc(w.pcs[me]) && ReadFits(w, w.pcs[me], a)
    ensures Leads(start, Shift(ReadEffect(w, w.pcs[me], a), me, ReadMove(w, w.pcs[me], a)))
  {
    LeadsStep(start, w, Do(me, a));
    ReadIsEffect(w, w.pcs[me], a);
  }

  lemma ReadIsEffect(w: World, pc: Pc, a: Action)
    requires ReadPc(pc) && ReadFits(w, pc, a)
    ensures Fits(w, pc, a) && Effect(w, pc, a) == ReadEffect(w, pc, a) && Lifecycle.Move(w, pc, a) == ReadMove(w, pc, a)
  {
  }

  lemma LeadsDelete(start: World, w: World, me: Client, a: Action)
    requires Leads(start, w) && me in w.pcs && DeletePc(w.pcs[me]) && DeleteFits(w.pcs[me], a)
    ensures Leads(start, Shift(DeleteEffect(w, w.pcs[me], a), me, DeleteMove(w, w.pcs[me], a)))
  {
    LeadsStep(start, w, Do(me, a));
  }

  /** A body gone and then a row marked: neither comes back. */
  lemma DeletionIsFinal(start: World, cleared: World, marked: World, t: World, id: Id)
    requires Reachable(start) && id in start.book.born && Leads(start, cleared) && Leads(cleared, marked)
             && Leads(marked, t)
    requires id !in cleared.bodies && (id in marked.rows ==> marked.rows[id].deletedAt.Some?)
    ensures Tombstoned(t, id) && BodyGone(t, id)
  {
    LeadsTrans(start, cleared, marked);
    LeadsTrans(cleared, marked, t);
    BornOn(start, cleared, id);
    BornOn(start, marked, id);
    StaysGone(cleared, t, id);
    StaysTombstoned(marked, t, id);
  }

  lemma BornOn(w: World, t: World, id: Id)
    requires Reachable(w) && id in w.book.born && Leads(w, t)
    ensures Reachable(t) && id in t.book.born
  {
    LeadsKeeps(w, t);
  }

  lemma StaysGone(w: World, t: World, id: Id)
    requires Reachable(w) && Leads(w, t) && BodyGone(w, id)
    ensures BodyGone(t, id)
  {
    LeadsKeeps(w, t);
  }

  lemma StaysTombstoned(w: World, t: World, id: Id)
    requires Reachable(w) && Leads(w, t) && Tombstoned(w, id)
    ensures Tombstoned(t, id)
  {
    LeadsKeeps(w, t);
  }

  lemma ClockOn(w: World, t: World)
    requires Reachable(w) && Leads(w, t)
    ensures w.clock <= t.clock
  {
    LeadsKeeps(w, t);
  }

  lemma RowsWereBorn(w: World, id: Id)
    requires Reachable(w) && id in w.rows
    ensures id in w.book.born
  {
    ReachableIsSound(w);
  }
}
