/** Runs from an empty start, step by step, for what the protocol does not promise: content
    released after a deletion, a row with both marks, a paste reported unavailable twice. */
module Scenarios {
  import opened Base
  import opened Canonical
  import opened Kdf
  import opened Envelope
  import opened PasteTable
  import opened SweepPass
  import opened Lifecycle
  import opened Honesty
  import opened Runs
  import Sealer = Envelope
  import Utf8
  import Marks
  import Releases
  import Unavailable

  const CFG := Config(Limits(1024, 3600, 60, 86400), Nanos, 0)
  const PASTE: Id := 7
  const OWNER: Id := 1
  const LIFETIME := 60
  const EXPIRY := LIFETIME * SECOND

  const KEY: Bytes32 := [
    0, 0, 0, 0, 0, 0, 0, 0, 0, 0, 0, 0, 0, 0, 0, 0, 0, 0, 0, 0, 0, 0, 0, 0, 0, 0, 0, 0, 0, 0, 0, 0]
  const NONCE: Nonce := [0, 0, 0, 0, 0, 0, 0, 0, 0, 0, 0, 0]

  /** A server with one wrapping key. */
  const RING := Ring(map["k" := KEY], "k", Argon2Params(1, 8, 1))
  const DRAWS := Draws(Some(KEY), Some(NONCE), None, Some(NONCE))

  /** The record it seals the empty content into. */
  const REC := Sealer.Record(PASTE, EXPIRY, BOM, DRAWS, KEY, "k", None)

  const ROW := NewRow(OWNER, 0, LIFETIME, BOM, false).(kekId := "k")

  lemma RingIsValid()
    ensures ValidRing(RING)
  {
    assert "" !in RING.keys;
  }

  lemma RecordIsSealed(kdf: KdfFunction)
    ensures ValidRing(RING) && SealValue(RING, kdf, None, PASTE, EXPIRY, BOM, [], DRAWS) == Ok(REC)
  {
    RingIsValid();
  }

  lemma RecordOpens(kdf: KdfFunction)
    ensures OpenValue(RING, kdf, None, PASTE, EXPIRY, REC, []) == Ok(BOM)
            && OpenWith(KEY, PASTE, EXPIRY, REC) == Ok(BOM)
  {
    RecordIsSealed(kdf);
    OpenSealed(RING, RING, kdf, None, PASTE, EXPIRY, BOM, [], DRAWS, PASTE, EXPIRY, []);
  }

  // --- Honest runs from the empty stores ---------------------------------------------------

  ghost predicate From(kdf: KdfFunction, w: World) {
    ValidRing(RING) && HonestLeads(RING, kdf, Initial(CFG, 0), w)
  }

  lemma Start(kdf: KdfFunction)
    ensures From(kdf, Initial(CFG, 0))
  {
    RingIsValid();
    HonestRefl(RING, kdf, Initial(CFG, 0));
  }

  lemma Then(kdf: KdfFunction, w: World, step: Step)
    requires From(kdf, w) && Honest(RING, kdf, w, step)
    ensures From(kdf, Next(w, step))
  {
    HonestStep(RING, kdf, Initial(CFG, 0), w, step);
  }

  // --- One client's own step ---------------------------------------------------------------

  lemma Own(w: World, c: Client, a: Action)
    requires c in w.pcs && Fits(w, w.pcs[c], a)
    ensures Next(w, Do(c, a)) == Shift(Effect(w, w.pcs[c], a), c, Move(w, w.pcs[c], a))
  {
  }

  lemma Starts(w: World, c: Client, a: Action)
    requires c !in w.pcs && StartFits(w, a)
    ensures Next(w, Do(c, a)) == Shift(StartEffect(w, a), c, Some(StartPc(w, a)))
  {
  }

  lemma ShiftTwice(w: World, c: Client, p: Pc, next: Option<Pc>)
    ensures Shift(Shift(w, c, Some(p)), c, next) == Shift(w, c, next)
  {
    assert Moved(Moved(w.pcs, c, Some(p)), c, next) == Moved(w.pcs, c, next);
  }

  // --- Create ------------------------------------------------------------------------------

  lemma EmptyIsAccepted()
    ensures CheckInput(CFG.limits, [], [], LIFETIME) == Ok(BOM)
  {
    assert Utf8.Valid([]);
    assert WithBOM([]) == BOM;
  }

  /** The stores after the paste was created, all else as at the start. */
  function Stocked(): World {
    World(CFG, 0, map[PASTE := ROW], map[PASTE := Body(REC, Some(EXPIRY))], map[], 0, [PasteCreated(PASTE)], map[],
          Book({PASTE}, map[PASTE := BOM], map[PASTE := EXPIRY], {REC.ciphertext}, [], map[], {}, false))
  }

  function Drawn(): World {
    Initial(CFG, 0).(book := Initial(CFG, 0).book.(issued := {PASTE}, made := map[PASTE := BOM]))
  }

  lemma BeginsCreate()
    ensures Next(Initial(CFG, 0), Do(0, BeginCreate(OWNER, [], [], LIFETIME, PASTE)))
         == Shift(Drawn(), 0, Some(Sealing(PASTE, NewRow(OWNER, 0, LIFETIME, BOM, false), BOM)))
  {
    EmptyIsAccepted();
    Starts(Initial(CFG, 0), 0, BeginCreate(OWNER, [], [], LIFETIME, PASTE));
  }

  lemma SealsRecord(w: World, c: Client, id: Id, m: Row, canonical: Bytes, rec: EncryptedBody)
    requires c in w.pcs && w.pcs[c] == Sealing(id, m, canonical) && SealsFor(rec, id, m.expiresAt, canonical)
             && !m.isProtected
    ensures Next(w, Do(c, Seal(Some(rec))))
         == Shift(w.(book := w.book.(ciphers := w.book.ciphers + {rec.ciphertext})), c,
                  Some(Timing(id, m.(kekId := rec.kekId), rec)))
  {
    Own(w, c, Seal(Some(rec)));
  }

  lemma SizesBody(w: World, c: Client, id: Id, m: Row, rec: EncryptedBody)
    requires c in w.pcs && w.pcs[c] == Timing(id, m, rec) && w.clock < m.expiresAt
    ensures Next(w, Do(c, Now)) == Shift(w, c, Some(Putting(id, m, rec, m.expiresAt - w.clock)))
  {
    Own(w, c, Now);
  }

  lemma PutsBody(w: World, c: Client, id: Id, m: Row, rec: EncryptedBody, remaining: int)
    requires c in w.pcs && w.pcs[c] == Putting(id, m, rec, remaining) && remaining >= MILLISECOND
    ensures Next(w, Do(c, Call(Lands, 0)))
         == Shift(w.(bodies := w.bodies[id := Body(rec, Some(w.clock + remaining))]), c, Some(Inserting(id, m)))
  {
    Own(w, c, Call(Lands, 0));
  }

  lemma InsertsRow(w: World, c: Client, id: Id, m: Row)
    requires c in w.pcs && w.pcs[c] == Inserting(id, m) && Insertable(w.rows, id, m) && w.cfg.grain.Nanos?
    ensures Next(w, Do(c, Call(Lands, 0)))
         == Shift(w.(rows := w.rows[id := m], book := w.book.(born := w.book.born[id := m.expiresAt])), c,
                  Some(NotingCreate(id)))
  {
    Own(w, c, Call(Lands, 0));
  }

  lemma NotesCreate(w: World, c: Client, id: Id)
    requires c in w.pcs && w.pcs[c] == NotingCreate(id)
    ensures Next(w, Do(c, Note)) == Shift(Lifecycle.Record(w, PasteCreated(id)), c, None)
  {
    Own(w, c, Note);
  }

  lemma CreatesPaste(kdf: KdfFunction)
    ensures From(kdf, Stocked())
  {
    var m := NewRow(OWNER, 0, LIFETIME, BOM, false);
    var w1 := Shift(Drawn(), 0, Some(Sealing(PASTE, m, BOM)));
    DrawsPaste(kdf);
    SealsPaste(kdf, w1);
    StocksPaste(kdf, Next(w1, Do(0, Seal(Some(REC)))));
  }

  lemma DrawsPaste(kdf: KdfFunction)
    ensures From(kdf, Shift(Drawn(), 0, Some(Sealing(PASTE, NewRow(OWNER, 0, LIFETIME, BOM, false), BOM))))
  {
    Start(kdf);
    BeginsCreate();
    Then(kdf, Initial(CFG, 0), Do(0, BeginCreate(OWNER, [], [], LIFETIME, PASTE)));
  }

  lemma SealsPaste(kdf: KdfFunction, w1: World)
    requires From(kdf, w1)
    requires w1 == Shift(Drawn(), 0, Some(Sealing(PASTE, NewRow(OWNER, 0, LIFETIME, BOM, false), BOM)))
    ensures var w2 := Next(w1, Do(0, Seal(Some(REC))));
            && From(kdf, w2)
            && w2 == Shift(Drawn().(book := Drawn().book.(ciphers := {REC.ciphertext})), 0,
                           Some(Timing(PASTE, ROW, REC)))
  {
    SealsRecord(w1, 0, PASTE, NewRow(OWNER, 0, LIFETIME, BOM, false), BOM, REC);
    RecordIsSealed(kdf);
    Then(kdf, w1, Do(0, Seal(Some(REC))));
  }

  lemma StocksPaste(kdf: KdfFunction, w2: World)
    requires From(kdf, w2)
    requires w2 == Shift(Drawn().(book := Drawn().book.(ciphers := {REC.ciphertext})), 0, Some(Timing(PASTE, ROW, REC)))
    ensures From(kdf, Stocked())
  {
    SizesBody(w2, 0, PASTE, ROW, REC);
    Then(kdf, w2, Do(0, Now));
    var w3 := Shift(w2, 0, Some(Putting(PASTE, ROW, REC, EXPIRY)));
    PutsBody(w3, 0, PASTE, ROW, REC, EXPIRY);
    Then(kdf, w3, Do(0, Call(Lands, 0)));
    var w4 := Next(w3, Do(0, Call(Lands, 0)));
    InsertsRow(w4, 0, PASTE, ROW);
    Then(kdf, w4, Do(0, Call(Lands, 0)));
    var w5 := Next(w4, Do(0, Call(Lands, 0)));
    NotesCreate(w5, 0, PASTE);
    Then(kdf, w5, Do(0, Note));
    assert Next(w5, Do(0, Note)).pcs == map[];
    assert Next(w5, Do(0, Note)) == Stocked();
  }

  // --- Read, Delete and Sweep --------------------------------------------------------------

  lemma BeginsRead(w: World, c: Client, id: Id)
    requires c !in w.pcs && id in w.rows
    ensures Next(w, Do(c, BeginRead(id, [], Lands))) == Shift(w, c, Some(ReadTiming(id, w.rows[id], [])))
  {
    Starts(w, c, BeginRead(id, [], Lands));
  }

  lemma PassesStatus(w: World, c: Client, id: Id, m: Row)
    requires c in w.pcs && w.pcs[c] == ReadTiming(id, m, []) && StatusOf(m, w.clock) == Active
    ensures Next(w, Do(c, Now)) == Shift(w, c, Some(Fetching(id, m, [])))
  {
    Own(w, c, Now);
  }

  lemma FindsNothing(w: World, c: Client, id: Id, m: Row)
    requires c in w.pcs && w.pcs[c] == Fetching(id, m, []) && id !in w.bodies
    ensures Next(w, Do(c, Call(Lands, 0))) == Shift(w, c, Some(Fetched(id, m, [], Missing)))
  {
    Own(w, c, Call(Lands, 0));
  }

  lemma WantsMarker(w: World, c: Client, id: Id, m: Row)
    requires c in w.pcs && w.pcs[c] == Fetched(id, m, [], Missing) && w.clock < m.expiresAt
    ensures Next(w, Do(c, Now)) == Shift(w, c, Some(MarkingUnavailable(id, m, w.clock)))
  {
    Own(w, c, Now);
  }

  /** A reader goes as far as its fetch. */
  lemma ReadsToFetch(kdf: KdfFunction, w: World, c: Client)
    requires From(kdf, w) && c !in w.pcs && PASTE in w.rows && StatusOf(w.rows[PASTE], w.clock) == Active
    ensures From(kdf, Shift(w, c, Some(Fetching(PASTE, w.rows[PASTE], []))))
  {
    var m := w.rows[PASTE];
    BeginsRead(w, c, PASTE);
    Then(kdf, w, Do(c, BeginRead(PASTE, [], Lands)));
    var w1 := Shift(w, c, Some(ReadTiming(PASTE, m, [])));
    PassesStatus(w1, c, PASTE, m);
    Then(kdf, w1, Do(c, Now));
    ShiftTwice(w, c, ReadTiming(PASTE, m, []), Some(Fetching(PASTE, m, [])));
  }

  lemma ReadsToMissing(kdf: KdfFunction, w: World, c: Client)
    requires From(kdf, w) && c !in w.pcs && PASTE in w.rows && StatusOf(w.rows[PASTE], w.clock) == Active
             && PASTE !in w.bodies
    ensures From(kdf, Shift(w, c, Some(Fetched(PASTE, w.rows[PASTE], [], Missing))))
  {
    var m := w.rows[PASTE];
    ReadsToFetch(kdf, w, c);
    var w1 := Shift(w, c, Some(Fetching(PASTE, m, [])));
    FindsNothing(w1, c, PASTE, m);
    Then(kdf, w1, Do(c, Call(Lands, 0)));
    ShiftTwice(w, c, Fetching(PASTE, m, []), Some(Fetched(PASTE, m, [], Missing)));
  }

  /** A reader finds no body and is about to write the marker. */
  lemma ReadsToMarker(kdf: KdfFunction, w: World, c: Client)
    requires From(kdf, w) && c !in w.pcs && PASTE in w.rows && StatusOf(w.rows[PASTE], w.clock) == Active
             && PASTE !in w.bodies
    ensures From(kdf, Shift(w, c, Some(MarkingUnavailable(PASTE, w.rows[PASTE], w.clock))))
  {
    var m := w.rows[PASTE];
    ReadsToMissing(kdf, w, c);
    var w2 := Shift(w, c, Some(Fetched(PASTE, m, [], Missing)));
    WantsMarker(w2, c, PASTE, m);
    Then(kdf, w2, Do(c, Now));
    ShiftTwice(w, c, Fetched(PASTE, m, [], Missing), Some(MarkingUnavailable(PASTE, m, w.clock)));
  }

  lemma BeginsDelete(w: World, c: Client, id: Id, who: Principal)
    requires c !in w.pcs && id in w.rows && who.isAdmin
    ensures Next(w, Do(c, BeginDelete(id, who, Lands))) == Shift(w, c, Some(DeleteTiming(id, w.rows[id], who)))
  {
    Starts(w, c, BeginDelete(id, who, Lands));
  }

  lemma PassesCheck(w: World, c: Client, id: Id, m: Row, who: Principal)
    requires c in w.pcs && w.pcs[c] == DeleteTiming(id, m, who) && m.deletedAt.None? && w.clock < m.expiresAt
    ensures Next(w, Do(c, Now)) == Shift(w, c, Some(DeletingBody(id, who, w.clock)))
  {
    Own(w, c, Now);
  }

  lemma DeletesBody(w: World, c: Client, id: Id, who: Principal, at: int)
    requires c in w.pcs && w.pcs[c] == DeletingBody(id, who, at)
    ensures Next(w, Do(c, Call(Lands, 0))) == Shift(w.(bodies := w.bodies - {id}), c, Some(MarkingDeleted(id, who, at)))
  {
    Own(w, c, Call(Lands, 0));
  }

  lemma MarksRow(w: World, c: Client, id: Id, who: Principal, at: int)
    requires c in w.pcs && w.pcs[c] == MarkingDeleted(id, who, at)
    ensures Next(w, Do(c, Call(Lands, 0)))
            == Shift(w.(rows := MarkDeleted(w.rows, id, who.user, at)), c, Some(NotingDelete(id)))
  {
    Own(w, c, Call(Lands, 0));
  }

  const ADMIN := Principal(2, true)

  /** A deletion goes as far as its mark. */
  lemma DeletesToMark(kdf: KdfFunction, w: World, c: Client)
    requires From(kdf, w) && c !in w.pcs && PASTE in w.rows && StatusOf(w.rows[PASTE], w.clock) == Active
    ensures From(kdf, Shift(w.(bodies := w.bodies - {PASTE}), c, Some(MarkingDeleted(PASTE, ADMIN, w.clock))))
  {
    var m := w.rows[PASTE];
    BeginsDelete(w, c, PASTE, ADMIN);
    Then(kdf, w, Do(c, BeginDelete(PASTE, ADMIN, Lands)));
    var w1 := Shift(w, c, Some(DeleteTiming(PASTE, m, ADMIN)));
    PassesCheck(w1, c, PASTE, m, ADMIN);
    Then(kdf, w1, Do(c, Now));
    ShiftTwice(w, c, DeleteTiming(PASTE, m, ADMIN), Some(DeletingBody(PASTE, ADMIN, w.clock)));
    var w2 := Shift(w, c, Some(DeletingBody(PASTE, ADMIN, w.clock)));
    DeletesBody(w2, c, PASTE, ADMIN, w.clock);
    Then(kdf, w2, Do(c, Call(Lands, 0)));
    ShiftTwice(w.(bodies := w.bodies - {PASTE}), c, DeletingBody(PASTE, ADMIN, w.clock),
               Some(MarkingDeleted(PASTE, ADMIN, w.clock)));
  }

  // --- Content released after a deletion ---------------------------------------------------

  lemma FindsRecord(w: World, c: Client, id: Id, m: Row)
    requires c in w.pcs && w.pcs[c] == Fetching(id, m, []) && id in w.bodies
    ensures Next(w, Do(c, Call(Lands, 0))) == Shift(w, c, Some(Fetched(id, m, [], Found(w.bodies[id].rec))))
  {
    Own(w, c, Call(Lands, 0));
  }

  lemma GoesToOpen(w: World, c: Client, id: Id, m: Row, rec: EncryptedBody)
    requires c in w.pcs && w.pcs[c] == Fetched(id, m, [], Found(rec)) && w.clock < m.expiresAt && !m.isProtected
    ensures Next(w, Do(c, Now)) == Shift(w, c, Some(Opening(id, m, rec, [])))
  {
    Own(w, c, Now);
  }

  lemma OpensRecord(kdf: KdfFunction, w: World, c: Client)
    requires ValidRing(RING) && c in w.pcs && w.pcs[c] == Opening(PASTE, ROW, REC, [])
    ensures Honest(RING, kdf, w, Do(c, Open(KEY, None)))
    ensures Next(w, Do(c, Open(KEY, None))) == Shift(w, c, Some(Opened(PASTE, ROW, BOM)))
  {
    RecordOpens(kdf);
    Own(w, c, Open(KEY, None));
    assert OpenValue(RING, kdf, None, PASTE, EXPIRY, REC, []) == OpenWith(KEY, PASTE, EXPIRY, REC);
  }

  /** A reader fetches the stored record and opens it. */
  lemma ReadsToOpened(kdf: KdfFunction, w: World, c: Client)
    requires From(kdf, w) && c !in w.pcs && PASTE in w.rows && w.rows[PASTE] == ROW && StatusOf(ROW, w.clock) == Active
    requires PASTE in w.bodies && w.bodies[PASTE].rec == REC
    ensures From(kdf, Shift(w, c, Some(Opened(PASTE, ROW, BOM))))
  {
    ReadsToFetch(kdf, w, c);
    var w1 := Shift(w, c, Some(Fetching(PASTE, ROW, [])));
    FindsRecord(w1, c, PASTE, ROW);
    Then(kdf, w1, Do(c, Call(Lands, 0)));
    ShiftTwice(w, c, Fetching(PASTE, ROW, []), Some(Fetched(PASTE, ROW, [], Found(REC))));
    var w2 := Shift(w, c, Some(Fetched(PASTE, ROW, [], Found(REC))));
    GoesToOpen(w2, c, PASTE, ROW, REC);
    Then(kdf, w2, Do(c, Now));
    ShiftTwice(w, c, Fetched(PASTE, ROW, [], Found(REC)), Some(Opening(PASTE, ROW, REC, [])));
    var w3 := Shift(w, c, Some(Opening(PASTE, ROW, REC, [])));
    OpensRecord(kdf, w3, c);
    Then(kdf, w3, Do(c, Open(KEY, None)));
    ShiftTwice(w, c, Opening(PASTE, ROW, REC, []), Some(Opened(PASTE, ROW, BOM)));
  }

  lemma ReaderAndDeletion(kdf: KdfFunction) returns (w: World)
    ensures From(kdf, w) && Tombstoned(w, PASTE)
    ensures 1 in w.pcs && Releases.Armed(RING, kdf, w.clock, w.pcs[1], PASTE)
  {
    var s := Stocked();
    CreatesPaste(kdf);
    ReadsToOpened(kdf, s, 1);
    var w1 := Shift(s, 1, Some(Opened(PASTE, ROW, BOM)));
    DeletesToMark(kdf, w1, 2);
    var w2 := Shift(w1.(bodies := w1.bodies - {PASTE}), 2, Some(MarkingDeleted(PASTE, ADMIN, 0)));
    MarksRow(w2, 2, PASTE, ADMIN, 0);
    Then(kdf, w2, Do(2, Call(Lands, 0)));
    w := Next(w2, Do(2, Call(Lands, 0)));
    assert w.pcs[1] == Opened(PASTE, ROW, BOM);
  }

  /** With an honest store and envelope throughout, a reader that opened the body before its
      deletion releases the content after the row is marked. */
  lemma ReleasedAfterDeletion(kdf: KdfFunction)
    ensures ValidRing(RING)
    ensures exists steps, later ::
              var w := Run(Initial(CFG, 0), steps);
              && HonestRun(RING, kdf, Initial(CFG, 0), steps) && HonestRun(RING, kdf, w, later)
              && Tombstoned(w, PASTE) && Releases.Released(w, Run(w, later), PASTE)
  {
    var w := ReaderAndDeletion(kdf);
    var steps :| Run(Initial(CFG, 0), steps) == w && HonestRun(RING, kdf, Initial(CFG, 0), steps);
    Releases.ReleaseAfterDeleteExactly(RING, kdf, CFG, 0, steps, PASTE);
    var later :| HonestRun(RING, kdf, w, later) && Releases.Released(w, Run(w, later), PASTE);
  }

  // --- Both marks --------------------------------------------------------------------------

  const SWEEP := SweepConfig(1, 0, true)

  /** The state in which a pass meets the paste: expired, its deletion about to mark it. */
  function Stalled(): World {
    Stocked().(clock := EXPIRY, bodies := map[], pcs := map[1 := MarkingDeleted(PASTE, ADMIN, 0)])
  }

  lemma DeletionStalls(kdf: KdfFunction)
    ensures From(kdf, Stalled())
  {
    var s := Stocked();
    CreatesPaste(kdf);
    DeletesToMark(kdf, s, 1);
    var w1 := Shift(s.(bodies := s.bodies - {PASTE}), 1, Some(MarkingDeleted(PASTE, ADMIN, 0)));
    Then(kdf, w1, Tick(EXPIRY));
    assert s.bodies - {PASTE} == map[];
    assert Next(w1, Tick(EXPIRY)) == Stalled();
  }

  lemma OneIsListed(m: Row, now: int)
    requires Pending(m, now)
    ensures ListExpiredUnaudited(map[PASTE := m], now, 1) == [PASTE]
  {
    var t: Table := map[PASTE := m];
    assert PendingIds(t, now) == {PASTE};
    OrderedContents(t, {PASTE});
    assert |{PASTE}| == 1;
    var order := PendingOrder(t, now);
    assert order[0] in Elements(order);
    assert order == [PASTE];
  }

  lemma ListsPaste(w: World, c: Client)
    requires c in w.pcs && w.pcs[c] == Listing(w.clock, SWEEP) && w.rows == map[PASTE := ROW] && w.clock == EXPIRY
    ensures Next(w, Do(c, Call(Lands, 0))) == Shift(w, c, Some(Sweeping(EXPIRY, SWEEP, [PASTE], [], true)))
  {
    OneIsListed(ROW, EXPIRY);
    Own(w, c, Call(Lands, 0));
  }

  lemma SweepsPaste(w: World, c: Client)
    requires c in w.pcs && w.pcs[c] == Sweeping(EXPIRY, SWEEP, [PASTE], [], true) && w.bodies == map[]
    ensures Next(w, Do(c, Call(Lands, 0))) == Shift(w, c, Some(NotingExpired(EXPIRY, SWEEP, [PASTE], [], true)))
  {
    Own(w, c, Call(Lands, 0));
    assert w.bodies - {PASTE} == map[];
  }

  lemma RecordsPaste(w: World, c: Client)
    requires c in w.pcs && w.pcs[c] == NotingExpired(EXPIRY, SWEEP, [PASTE], [], true)
    ensures Next(w, Do(c, Note))
            == Shift(Lifecycle.Record(w, PasteExpired(PASTE)), c, Some(MarkingAudited(EXPIRY, SWEEP, [PASTE], true)))
  {
    Own(w, c, Note);
    assert [PASTE][1..] == [] && [] + [PASTE] == [PASTE];
  }

  lemma AuditsPaste(w: World, c: Client)
    requires c in w.pcs && w.pcs[c] == MarkingAudited(EXPIRY, SWEEP, [PASTE], true) && w.rows == map[PASTE := ROW]
    ensures Next(w, Do(c, Call(Lands, 0))) == Shift(w.(rows := map[PASTE := ROW.(auditedAt := Some(EXPIRY))]), c, None)
  {
    Own(w, c, Call(Lands, 0));
    assert MarkExpiredAudited(w.rows, [PASTE], EXPIRY) == map[PASTE := ROW.(auditedAt := Some(EXPIRY))];
  }

  /** A whole pass by client 2 while the deletion waits. */
  lemma PassAudits(kdf: KdfFunction) returns (w: World)
    ensures From(kdf, w) && w.rows == map[PASTE := ROW.(auditedAt := Some(EXPIRY))]
    ensures 1 in w.pcs && w.pcs[1] == MarkingDeleted(PASTE, ADMIN, 0)
  {
    var s := Stalled();
    DeletionStalls(kdf);
    Starts(s, 2, BeginSweep(SWEEP));
    Then(kdf, s, Do(2, BeginSweep(SWEEP)));
    var w1 := Shift(s, 2, Some(Listing(EXPIRY, SWEEP)));
    ListsPaste(w1, 2);
    Then(kdf, w1, Do(2, Call(Lands, 0)));
    var w2 := Shift(w1, 2, Some(Sweeping(EXPIRY, SWEEP, [PASTE], [], true)));
    SweepsPaste(w2, 2);
    Then(kdf, w2, Do(2, Call(Lands, 0)));
    w := RestOfPass(kdf, Shift(w2, 2, Some(NotingExpired(EXPIRY, SWEEP, [PASTE], [], true))));
  }

  lemma RestOfPass(kdf: KdfFunction, w3: World) returns (w: World)
    requires From(kdf, w3) && 2 in w3.pcs && w3.pcs[2] == NotingExpired(EXPIRY, SWEEP, [PASTE], [], true)
    requires w3.rows == map[PASTE := ROW] && 1 in w3.pcs && w3.pcs[1] == MarkingDeleted(PASTE, ADMIN, 0)
    ensures From(kdf, w) && w.rows == map[PASTE := ROW.(auditedAt := Some(EXPIRY))]
    ensures 1 in w.pcs && w.pcs[1] == MarkingDeleted(PASTE, ADMIN, 0)
  {
    RecordsPaste(w3, 2);
    Then(kdf, w3, Do(2, Note));
    var w4 := Next(w3, Do(2, Note));
    AuditsPaste(w4, 2);
    Then(kdf, w4, Do(2, Call(Lands, 0)));
    w := Next(w4, Do(2, Call(Lands, 0)));
  }

  /** A deletion whose mark lands after a pass has audited the row gives it both marks. */
  lemma LateMarkGivesBoth(kdf: KdfFunction)
    ensures ValidRing(RING)
    ensures exists steps ::
              var w := Run(Initial(CFG, 0), steps);
              HonestRun(RING, kdf, Initial(CFG, 0), steps) && PASTE in w.rows && Marks.Both(w.rows[PASTE])
  {
    var w := PassAudits(kdf);
    MarksRow(w, 1, PASTE, ADMIN, 0);
    Then(kdf, w, Do(1, Call(Lands, 0)));
    var t := Next(w, Do(1, Call(Lands, 0)));
    var steps :| Run(Initial(CFG, 0), steps) == t && HonestRun(RING, kdf, Initial(CFG, 0), steps);
  }

  // --- Two reports -------------------------------------------------------------------------

  /** The body was lost to a restart, and two readers have noticed. */
  lemma TwoWriters(kdf: KdfFunction) returns (w: World)
    ensures From(kdf, w) && w.markers == map[] && w.epoch == 1 && w.log == [PasteCreated(PASTE)]
    ensures 1 in w.pcs && 2 in w.pcs && w.pcs[1] == w.pcs[2] == MarkingUnavailable(PASTE, ROW, 0)
  {
    var s := Stocked();
    CreatesPaste(kdf);
    Then(kdf, s, RedisRestart);
    var w1 := Next(s, RedisRestart);
    ReadsToMarker(kdf, w1, 1);
    var w2 := Shift(w1, 1, Some(MarkingUnavailable(PASTE, ROW, 0)));
    ReadsToMarker(kdf, w2, 2);
    w := Shift(w2, 2, Some(MarkingUnavailable(PASTE, ROW, 0)));
  }

  lemma NoReportYet(id: Id, epoch: nat)
    ensures Unavailable.Reports([PasteCreated(id)], id, epoch) == 0
  {
  }

  lemma ReportsAfter(start: World, steps: seq<Step>, more: seq<Step>, id: Id, epoch: nat, n: nat)
    requires Unavailable.Reports(Run(Run(start, steps), more).log, id, epoch) == n
    ensures Unavailable.Reports(Run(start, steps + more).log, id, epoch) == n
  {
    RunConcat(start, steps, more);
  }

  /** With the second marker write delayed past the first marker's life, one Redis lifetime sees
      two reports of the same paste. */
  lemma ReportedTwice(kdf: KdfFunction)
    ensures exists steps :: Unavailable.Reports(Run(Initial(CFG, 0), steps).log, PASTE, 1) == 2
  {
    var w := TwoWriters(kdf);
    var wait := EXPIRY + HOUR;
    Unavailable.DelayedWriteReportsTwice(w, 1, 2, wait);
    NoReportYet(PASTE, 1);
    var steps :| Run(Initial(CFG, 0), steps) == w && HonestRun(RING, kdf, Initial(CFG, 0), steps);
    ReportsAfter(Initial(CFG, 0), steps, Unavailable.DelayedWrite(1, 2, PASTE, wait), PASTE, 1, 2);
  }
}
