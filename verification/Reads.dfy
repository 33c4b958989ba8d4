/** What Read hands out: over every interleaving, and whatever records the body store returns,
    only the canonical bytes of the paste's own Create, and only before its stored expiry. */
module Reads {
  import opened Base
  import opened Canonical
  import opened Envelope
  import opened PasteTable
  import opened Lifecycle
  import Bodies
  import Kdf

  /** A Read that has its row; from Fetching on it has seen the row active. */
  predicate HoldsRow(pc: Pc) {
    ReadPc(pc) && !pc.NotingUnavailable? && !pc.NotingFailure?
  }

  predicate HoldsPlain(pc: Pc) {
    pc.Opened? || pc.Counting? || pc.Counted? || pc.NotingView? || pc.Viewed?
  }

  predicate RowGenuine(b: Book, id: Id, m: Row) {
    id in b.made && m.hash == HashHex(b.made[id])
  }

  predicate ReadGenuine(b: Book, pc: Pc)
    requires HoldsRow(pc)
  {
    && RowGenuine(b, pc.id, pc.m) && pc.id in b.born && pc.m.expiresAt == b.born[pc.id]
    && (!pc.ReadTiming? ==> pc.m.deletedAt.None?)
    && (pc.Fetched? && pc.reply.Found? ==> Plantable(b, pc.reply.rec))
    && (pc.Opening? ==> Plantable(b, pc.rec))
    && (HoldsPlain(pc) ==> pc.plain == b.made[pc.id])
  }

  predicate PcGenuine(b: Book, pc: Pc) {
    && (Bodies.Unborn(pc) ==> RowGenuine(b, pc.id, pc.m))
    && (pc.Sealing? ==> pc.canonical == b.made[pc.id])
    && (pc.Timing? || pc.Putting? ==> Plantable(b, pc.rec))
    && (HoldsRow(pc) ==> ReadGenuine(b, pc))
  }

  predicate RowsGenuine(b: Book, rows: Table) {
    forall id :: id in rows ==> RowGenuine(b, id, rows[id]) && id in b.born && rows[id].expiresAt == b.born[id]
  }

  predicate BodiesGenuine(b: Book, bodies: map<Id, Body>) {
    forall id :: id in bodies ==> Plantable(b, bodies[id].rec)
  }

  /** Every body ciphertext holds the content of the paste named in its associated data. */
  predicate CipherGenuine(b: Book, x: Cipher) {
    x.Sealed? && x.aad.BodyAad? ==> x.aad.id in b.made && x.plain == b.made[x.aad.id]
  }

  predicate CiphersGenuine(b: Book) {
    forall x :: x in b.ciphers ==> CipherGenuine(b, x)
  }

  /** The promise to Read's caller. */
  predicate ServedGenuine(b: Book, s: Served) {
    && s.id in b.made && s.content == b.made[s.id] && s.m.hash == HashHex(s.content)
    && StatusOf(s.m, s.at) == Active
    && s.id in b.born && s.m.expiresAt == b.born[s.id]
  }

  predicate AllServedGenuine(b: Book) {
    forall i :: 0 <= i < |b.served| ==> ServedGenuine(b, b.served[i])
  }

  predicate PcsGenuine(b: Book, pcs: map<Client, Pc>) {
    forall c :: c in pcs ==> PcGenuine(b, pcs[c])
  }

  predicate Genuine(w: World) {
    && w.book.made.Keys == w.book.issued
    && RowsGenuine(w.book, w.rows) && BodiesGenuine(w.book, w.bodies) && CiphersGenuine(w.book)
    && AllServedGenuine(w.book) && PcsGenuine(w.book, w.pcs)
  }

  // --- History only grows ------------------------------------------------------------------

  predicate Grows(b: Book, d: Book) {
    && (forall id :: id in b.made ==> id in d.made && d.made[id] == b.made[id])
    && (forall id :: id in b.born ==> id in d.born && d.born[id] == b.born[id])
    && b.ciphers <= d.ciphers
  }

  lemma PcGrows(b: Book, d: Book, pc: Pc)
    requires Grows(b, d) && PcGenuine(b, pc)
    ensures PcGenuine(d, pc)
  {
  }

  lemma StoresGrow(b: Book, d: Book, rows: Table, bodies: map<Id, Body>)
    requires Grows(b, d) && RowsGenuine(b, rows) && BodiesGenuine(b, bodies)
    ensures RowsGenuine(d, rows) && BodiesGenuine(d, bodies)
  {
  }

  lemma HistoryGrows(b: Book, d: Book)
    requires Grows(b, d) && AllServedGenuine(b) && CiphersGenuine(b) && d.served == b.served
    ensures AllServedGenuine(d) && forall x :: x in b.ciphers ==> CipherGenuine(d, x)
  {
    forall i | 0 <= i < |d.served| ensures ServedGenuine(d, d.served[i]) {
      assert ServedGenuine(b, b.served[i]);
    }
  }

  /** Clients that stay put keep their claims. */
  lemma ShiftKeepsGenuine(w: World, t: World, c: Client, next: Option<Pc>)
    requires Genuine(w) && t.pcs == w.pcs && Grows(w.book, t.book) && t.book.made.Keys == t.book.issued
    requires RowsGenuine(t.book, t.rows) && BodiesGenuine(t.book, t.bodies) && CiphersGenuine(t.book)
             && AllServedGenuine(t.book)
    requires next.Some? ==> PcGenuine(t.book, next.value)
    ensures Genuine(Shift(t, c, next))
  {
    forall d | d in w.pcs ensures PcGenuine(t.book, w.pcs[d]) {
      PcGrows(w.book, t.book, w.pcs[d]);
    }
  }

  /** A step that writes no history this invariant speaks of. */
  lemma QuietKeepsGenuine(w: World, t: World, c: Client, next: Option<Pc>)
    requires Genuine(w) && t.pcs == w.pcs
    requires t.book.made == w.book.made && t.book.issued == w.book.issued && t.book.born == w.book.born
    requires t.book.ciphers == w.book.ciphers && t.book.served == w.book.served
    requires RowsGenuine(w.book, t.rows) && BodiesGenuine(w.book, t.bodies)
    requires next.Some? ==> PcGenuine(w.book, next.value)
    ensures Genuine(Shift(t, c, next))
  {
    StoresGrow(w.book, t.book, t.rows, t.bodies);
    HistoryGrows(w.book, t.book);
    if next.Some? {
      PcGrows(w.book, t.book, next.value);
    }
    ShiftKeepsGenuine(w, t, c, next);
  }

  // --- Create ------------------------------------------------------------------------------

  lemma IssueKeepsGenuine(w: World, t: World, c: Client, pc: Pc)
    requires Genuine(w) && pc.Sealing? && pc.id !in w.book.issued && pc.m.hash == HashHex(pc.canonical)
    requires t.(book := w.book) == w && t.book.issued == w.book.issued + {pc.id}
             && t.book.made == w.book.made[pc.id := pc.canonical]
    requires t.book.(issued := w.book.issued, made := w.book.made) == w.book
    ensures Genuine(Shift(t, c, Some(pc)))
  {
    StoresGrow(w.book, t.book, t.rows, t.bodies);
    HistoryGrows(w.book, t.book);
    ShiftKeepsGenuine(w, t, c, Some(pc));
  }

  lemma SealKeepsGenuine(w: World, c: Client, a: Action)
    requires Genuine(w) && c in w.pcs && w.pcs[c].Sealing? && CreateFits(w, w.pcs[c], a)
    ensures Genuine(Shift(CreateEffect(w, w.pcs[c], a), c, CreateMove(w, w.pcs[c], a)))
  {
    var t, next := CreateEffect(w, w.pcs[c], a), CreateMove(w, w.pcs[c], a);
    assert PcGenuine(w.book, w.pcs[c]);
    StoresGrow(w.book, t.book, t.rows, t.bodies);
    HistoryGrows(w.book, t.book);
    ShiftKeepsGenuine(w, t, c, next);
  }

  /** A row enters the table with the content hash and expiry its Create fixed. */
  lemma BirthKeepsGenuine(w: World, c: Client, id: Id, row: Row, next: Option<Pc>)
    requires Genuine(w) && id !in w.book.born && RowGenuine(w.book, id, row)
             && (next.Some? ==> !Bodies.Unborn(next.value) && !ReadPc(next.value))
    ensures Genuine(Shift(w.(rows := w.rows[id := row], book := w.book.(born := w.book.born[id := row.expiresAt])), c,
                          next))
  {
    var t := w.(rows := w.rows[id := row], book := w.book.(born := w.book.born[id := row.expiresAt]));
    StoresGrow(w.book, t.book, w.rows, t.bodies);
    HistoryGrows(w.book, t.book);
    assert RowsGenuine(t.book, t.rows);
    ShiftKeepsGenuine(w, t, c, next);
  }

  lemma InsertKeepsGenuine(w: World, c: Client, a: Action)
    requires Bodies.Inv(w) && Genuine(w) && c in w.pcs && w.pcs[c].Inserting? && CreateFits(w, w.pcs[c], a)
    ensures Genuine(Shift(CreateEffect(w, w.pcs[c], a), c, CreateMove(w, w.pcs[c], a)))
  {
    var pc := w.pcs[c];
    assert PcGenuine(w.book, pc) && Bodies.PcInv(w.bodies, w.book.born, w.book.issued, pc);
    if CreateEffect(w, pc, a) == w {
      QuietKeepsGenuine(w, w, c, CreateMove(w, pc, a));
    } else {
      BirthKeepsGenuine(w, c, pc.id, Stored(w.cfg.grain, pc.m), CreateMove(w, pc, a));
    }
  }

  /** Between sealing and inserting, only a sealed record is written. */
  lemma CreateMovesGenuinely(w: World, pc: Pc, a: Action)
    requires CreatePc(pc) && CreateFits(w, pc, a) && !pc.Sealing? && !pc.Inserting?
    requires PcGenuine(w.book, pc) && BodiesGenuine(w.book, w.bodies)
    ensures var t := CreateEffect(w, pc, a);
            t.book == w.book && t.rows == w.rows && t.pcs == w.pcs && BodiesGenuine(w.book, t.bodies)
    ensures var next := CreateMove(w, pc, a); next.Some? ==> PcGenuine(w.book, next.value)
  {
  }

  lemma CreateKeepsGenuine(w: World, c: Client, a: Action)
    requires Bodies.Inv(w) && Genuine(w) && c in w.pcs && CreatePc(w.pcs[c]) && CreateFits(w, w.pcs[c], a)
    ensures Genuine(Shift(CreateEffect(w, w.pcs[c], a), c, CreateMove(w, w.pcs[c], a)))
  {
    var pc := w.pcs[c];
    if pc.Sealing? {
      SealKeepsGenuine(w, c, a);
    } else if pc.Inserting? {
      InsertKeepsGenuine(w, c, a);
    } else {
      assert PcGenuine(w.book, pc);
      CreateMovesGenuinely(w, pc, a);
      QuietKeepsGenuine(w, CreateEffect(w, pc, a), c, CreateMove(w, pc, a));
    }
  }

  // --- Read --------------------------------------------------------------------------------

  /** Whatever record it was handed, what Open returns is the paste's own content. */
  lemma OpenYieldsOwnContent(b: Book, pc: Pc, wrapKey: Bytes, refused: Option<EnvelopeError>)
    requires pc.Opening? && PcGenuine(b, pc) && CiphersGenuine(b)
    ensures var next := OpenRecord(pc, wrapKey, refused); next.Some? ==> PcGenuine(b, next.value)
  {
    if refused.None? && OpenWith(wrapKey, pc.id, pc.m.expiresAt, pc.rec).Ok? {
      OpenBinds(wrapKey, pc.id, pc.m.expiresAt, pc.rec);
      assert CipherGenuine(b, pc.rec.ciphertext);
    }
  }

  lemma ReadMovesGenuinely(w: World, pc: Pc, a: Action)
    requires ReadPc(pc) && ReadFits(w, pc, a) && PcGenuine(w.book, pc) && BodiesGenuine(w.book, w.bodies)
             && !pc.Opening?
    ensures var next := ReadMove(w, pc, a); next.Some? ==> PcGenuine(w.book, next.value)
  {
  }

  lemma ServingGrows(b: Book, s: Served)
    requires AllServedGenuine(b) && CiphersGenuine(b) && ServedGenuine(b, s)
    ensures var d := b.(served := b.served + [s]); AllServedGenuine(d) && CiphersGenuine(d)
  {
    var d := b.(served := b.served + [s]);
    forall i | 0 <= i < |d.served| ensures ServedGenuine(d, d.served[i]) {
      if i < |b.served| {
        assert ServedGenuine(b, b.served[i]);
      }
    }
    assert forall x :: x in b.ciphers ==> CipherGenuine(d, x) by {
      forall x | x in b.ciphers ensures CipherGenuine(d, x) {
        assert CipherGenuine(b, x);
      }
    }
  }

  lemma ServeKeepsGenuine(w: World, c: Client, s: Served)
    requires Genuine(w) && ServedGenuine(w.book, s)
    ensures Genuine(Shift(w.(book := w.book.(served := w.book.served + [s])), c, None))
  {
    var t := w.(book := w.book.(served := w.book.served + [s]));
    StoresGrow(w.book, t.book, t.rows, t.bodies);
    ServingGrows(w.book, s);
    ShiftKeepsGenuine(w, t, c, None);
  }

  /** The last clock reading before content is released was before the stored expiry. */
  lemma ViewedServesGenuinely(b: Book, pc: Pc, at: int)
    requires pc.Viewed? && PcGenuine(b, pc) && at < pc.m.expiresAt
    ensures ServedGenuine(b, Served(pc.id, pc.m, pc.plain, at))
  {
  }

  lemma ReadKeepsGenuine(w: World, c: Client, a: Action)
    requires Genuine(w) && c in w.pcs && ReadPc(w.pcs[c]) && ReadFits(w, w.pcs[c], a)
    ensures Genuine(Shift(ReadEffect(w, w.pcs[c], a), c, ReadMove(w, w.pcs[c], a)))
  {
    var pc := w.pcs[c];
    assert PcGenuine(w.book, pc);
    if pc.Viewed? {
      if pc.m.expiresAt <= w.clock {
        QuietKeepsGenuine(w, w, c, None);
      } else {
        ViewedServesGenuinely(w.book, pc, w.clock);
        ServeKeepsGenuine(w, c, Served(pc.id, pc.m, pc.plain, w.clock));
      }
    } else {
      if pc.Opening? {
        OpenYieldsOwnContent(w.book, pc, a.wrapKey, a.refused);
      } else {
        ReadMovesGenuinely(w, pc, a);
      }
      ReadFrame(w, pc, a);
      QuietReadKeepsGenuine(w, ReadEffect(w, pc, a), c, pc.id, ReadMove(w, pc, a));
    }
  }

  lemma QuietReadKeepsGenuine(w: World, t: World, c: Client, id: Id, next: Option<Pc>)
    requires Genuine(w) && t.pcs == w.pcs && t.bodies == w.bodies
    requires t.book.made == w.book.made && t.book.issued == w.book.issued && t.book.born == w.book.born
    requires t.book.ciphers == w.book.ciphers && t.book.served == w.book.served
    requires t.rows == w.rows || t.rows == IncrementViews(w.rows, id)
    requires next.Some? ==> PcGenuine(w.book, next.value)
    ensures Genuine(Shift(t, c, next))
  {
    QuietKeepsGenuine(w, t, c, next);
  }

  // --- Delete and Sweep --------------------------------------------------------------------

  /** Rows keep their hash and expiry, whatever else happens to them. */
  predicate SameFacts(rows: Table, after: Table) {
    forall id :: id in after ==>
        id in rows && after[id].hash == rows[id].hash && after[id].expiresAt == rows[id].expiresAt
  }

  lemma SameFactsAreGenuine(b: Book, rows: Table, after: Table)
    requires RowsGenuine(b, rows) && SameFacts(rows, after)
    ensures RowsGenuine(b, after)
  {
    forall id | id in after ensures RowGenuine(b, id, after[id]) && id in b.born && after[id].expiresAt == b.born[id] {
      assert RowGenuine(b, id, rows[id]);
    }
  }

  lemma DeleteKeepsFacts(w: World, pc: Pc, a: Action)
    requires DeletePc(pc) && DeleteFits(pc, a)
    ensures SameFacts(w.rows, DeleteEffect(w, pc, a).rows) && DeleteEffect(w, pc, a).bodies.Keys <= w.bodies.Keys
    ensures forall id :: id in DeleteEffect(w, pc, a).bodies ==> DeleteEffect(w, pc, a).bodies[id] == w.bodies[id]
  {
  }

  lemma DeleteKeepsGenuine(w: World, c: Client, a: Action)
    requires Genuine(w) && c in w.pcs && DeletePc(w.pcs[c]) && DeleteFits(w.pcs[c], a)
    ensures Genuine(Shift(DeleteEffect(w, w.pcs[c], a), c, DeleteMove(w, w.pcs[c], a)))
  {
    var pc := w.pcs[c];
    DeleteFrame(w, pc, a);
    DeleteKeepsFacts(w, pc, a);
    SameFactsAreGenuine(w.book, w.rows, DeleteEffect(w, pc, a).rows);
    QuietKeepsGenuine(w, DeleteEffect(w, pc, a), c, DeleteMove(w, pc, a));
  }

  lemma SweepKeepsFacts(w: World, pc: Pc, a: Action)
    requires SweepPc(pc) && SweepFits(pc, a)
    ensures SameFacts(w.rows, SweepEffect(w, pc, a).rows)
  {
    if pc.Purging? {
      PurgeFrame(w, pc.now, pc.cfg, a.fate);
    } else if pc.MarkingAudited? {
      assert SameFacts(w.rows, MarkEffect(w, pc.now, pc.ids, a.fate).rows);
    }
  }

  lemma SweepKeepsGenuine(w: World, c: Client, a: Action)
    requires Genuine(w) && c in w.pcs && SweepPc(w.pcs[c]) && SweepFits(w.pcs[c], a)
    ensures Genuine(Shift(SweepEffect(w, w.pcs[c], a), c, SweepMove(w, w.pcs[c], a)))
  {
    var pc := w.pcs[c];
    SweepFrame(w, pc, a);
    SweepStaysSweep(w, pc, a);
    SweepKeepsFacts(w, pc, a);
    SameFactsAreGenuine(w.book, w.rows, SweepEffect(w, pc, a).rows);
    QuietKeepsGenuine(w, SweepEffect(w, pc, a), c, SweepMove(w, pc, a));
  }

  // --- Every run ---------------------------------------------------------------------------

  lemma StartKeepsGenuine(w: World, c: Client, a: Action)
    requires Genuine(w) && StartFits(w, a)
    ensures Genuine(Shift(StartEffect(w, a), c, Some(StartPc(w, a))))
  {
    StartFrame(w, a);
    if a.BeginCreate? {
      IssueKeepsGenuine(w, StartEffect(w, a), c, StartPc(w, a));
    } else {
      QuietKeepsGenuine(w, w, c, Some(StartPc(w, a)));
    }
  }

  lemma CrashKeepsGenuine(w: World, c: Client)
    requires Bodies.Inv(w) && Genuine(w) && c in w.pcs
    ensures Genuine(Shift(Effect(w, w.pcs[c], Crash), c, None))
  {
    QuietKeepsGenuine(w, Effect(w, w.pcs[c], Crash), c, None);
  }

  lemma ActKeepsGenuine(w: World, c: Client, a: Action)
    requires Bodies.Inv(w) && Genuine(w) && c in w.pcs && Fits(w, w.pcs[c], a)
    ensures Genuine(Shift(Effect(w, w.pcs[c], a), c, Move(w, w.pcs[c], a)))
  {
    var pc := w.pcs[c];
    if a.Crash? {
      CrashKeepsGenuine(w, c);
    } else if CreatePc(pc) {
      CreateKeepsGenuine(w, c, a);
    } else if DeletePc(pc) {
      DeleteKeepsGenuine(w, c, a);
    } else if SweepPc(pc) {
      SweepKeepsGenuine(w, c, a);
    } else {
      ReadKeepsGenuine(w, c, a);
    }
  }

  lemma StepKeepsGenuine(w: World, step: Step)
    requires Bodies.Inv(w) && Genuine(w)
    ensures Genuine(Next(w, step))
  {
    match step
    case Do(c, a) =>
      if c !in w.pcs {
        if StartFits(w, a) {
          StartKeepsGenuine(w, c, a);
        }
      } else if Fits(w, w.pcs[c], a) {
        ActKeepsGenuine(w, c, a);
      }
    case _ =>
  }

  lemma {:induction false} RunKeepsGenuine(cfg: Config, clock: int, steps: seq<Step>)
    ensures Genuine(Run(Initial(cfg, clock), steps))
  {
    if steps != [] {
      var before := steps[..|steps| - 1];
      RunKeepsGenuine(cfg, clock, before);
      Bodies.RunKeepsInv(cfg, clock, before);
      StepKeepsGenuine(Run(Initial(cfg, clock), before), steps[|steps| - 1]);
    }
  }

  /** `step` begins a Create that passes its checks and draws the new id `id` for a content with
      canonical form `made`. */
  predicate Creates(w: World, step: Step, id: Id, made: Bytes) {
    && step.Do? && step.client !in w.pcs && StartFits(w, step.action)
    && step.action.BeginCreate? && step.action.id == id && id !in w.book.issued
    && Canonicalize(step.action.content, w.cfg.limits.maxSize) == Ok(made)
  }

  predicate MadeIs(w: World, id: Id, made: Bytes) {
    id in w.book.made && w.book.made[id] == made
  }

  /** Step `k` of the run is the Create of `id`, and no later step changes what it fixed. */
  predicate CreatedAt(start: World, steps: seq<Step>, k: nat, id: Id, made: Bytes) {
    && k < |steps| && Creates(Run(start, steps[..k]), steps[k], id, made)
    && forall n :: k < n <= |steps| ==> MadeIs(Run(start, steps[..n]), id, made)
  }

  lemma StepMakes(w: World, step: Step, id: Id)
    requires w.book.made.Keys == w.book.issued && id in Next(w, step).book.made
    ensures if id in w.book.made then Next(w, step).book.made[id] == w.book.made[id]
            else Creates(w, step, id, Next(w, step).book.made[id])
  {
    if step.Do? && step.client in w.pcs && Fits(w, w.pcs[step.client], step.action) {
      EffectFrame(w, w.pcs[step.client], step.action);
    } else if step.Do? && step.client !in w.pcs && StartFits(w, step.action) {
      StartFrame(w, step.action);
    }
  }

  lemma CreatedStays(start: World, before: seq<Step>, steps: seq<Step>, k: nat, id: Id, made: Bytes)
    requires before <= steps && |steps| == |before| + 1
    requires CreatedAt(start, before, k, id, made) && MadeIs(Run(start, steps), id, made)
    ensures CreatedAt(start, steps, k, id, made)
  {
    assert before[..k] == steps[..k];
    forall n | k < n <= |steps| ensures MadeIs(Run(start, steps[..n]), id, made) {
      if n == |steps| {
        assert steps[..n] == steps;
      } else {
        assert before[..n] == steps[..n];
      }
    }
  }

  lemma CreatedLast(start: World, steps: seq<Step>, id: Id, made: Bytes)
    requires steps != [] && Creates(Run(start, steps[..|steps| - 1]), steps[|steps| - 1], id, made)
    requires MadeIs(Run(start, steps), id, made)
    ensures CreatedAt(start, steps, |steps| - 1, id, made)
  {
    assert steps[..|steps|] == steps;
  }

  /** What a run fixed for an id, it fixed in that id's one Create, and has kept since. */
  lemma {:induction false} MadeByItsCreate(cfg: Config, clock: int, steps: seq<Step>, id: Id)
    requires id in Run(Initial(cfg, clock), steps).book.made
    ensures exists k: nat :: CreatedAt(Initial(cfg, clock), steps, k, id, Run(Initial(cfg, clock), steps).book.made[id])
  {
    var start, before := Initial(cfg, clock), steps[..|steps| - 1];
    var w, t := Run(start, before), Run(start, steps);
    RunKeepsGenuine(cfg, clock, before);
    StepMakes(w, steps[|steps| - 1], id);
    if id in w.book.made {
      MadeByItsCreate(cfg, clock, before, id);
      var k: nat :| CreatedAt(start, before, k, id, w.book.made[id]);
      CreatedStays(start, before, steps, k, id, t.book.made[id]);
    } else {
      CreatedLast(start, steps, id, t.book.made[id]);
    }
  }

  /** An id has one Create in a run. */
  lemma CreatedOnce(cfg: Config, clock: int, steps: seq<Step>, j: nat, k: nat, id: Id, a: Bytes, b: Bytes)
    requires CreatedAt(Initial(cfg, clock), steps, j, id, a) && CreatedAt(Initial(cfg, clock), steps, k, id, b)
    ensures j == k && a == b
  {
    RunKeepsGenuine(cfg, clock, steps[..j]);
    RunKeepsGenuine(cfg, clock, steps[..k]);
    assert MadeIs(Run(Initial(cfg, clock), steps[..|steps|]), id, a);
  }

  /** Over any run, everything Read released is the canonical content of that paste's Create,
      hashes to the stored content hash, was active and not yet expired at the last clock
      reading, even where the body store returned records of other pastes or made-up bytes
      and the table dropped sub-second digits of the expiry. */
  lemma ReadsReturnOwnContent(cfg: Config, clock: int, steps: seq<Step>, i: nat)
    requires i < |Run(Initial(cfg, clock), steps).book.served|
    ensures var b := Run(Initial(cfg, clock), steps).book;
            var s := b.served[i];
            && (exists k: nat :: CreatedAt(Initial(cfg, clock), steps, k, s.id, s.content))
            && s.m.hash == HashHex(s.content)
            && StatusOf(s.m, s.at) == Active
            && s.id in b.born && s.at < b.born[s.id] == s.m.expiresAt
  {
    RunKeepsGenuine(cfg, clock, steps);
    var s := Run(Initial(cfg, clock), steps).book.served[i];
    assert ServedGenuine(Run(Initial(cfg, clock), steps).book, s);
    MadeByItsCreate(cfg, clock, steps, s.id);
  }

  /** A record sealed for a paste still opens under the expiry its row kept. */
  lemma StoredExpiryOpens(ring: Ring, kdf: Kdf.KdfFunction, grain: Grain, id: Id, m: Row, plain: Bytes, password: Bytes,
                          d: Draws)
    requires ValidRing(ring) && SealValue(ring, kdf, None, id, m.expiresAt, plain, password, d).Ok?
    ensures OpenValue(ring, kdf, None, id, Stored(grain, m).expiresAt,
                      SealValue(ring, kdf, None, id, m.expiresAt, plain, password, d).value, password) == Ok(plain)
  {
    CoarsenKeepsSecond(grain, m.expiresAt);
    OpenSealed(ring, ring, kdf, None, id, m.expiresAt, plain, password, d, id, Stored(grain, m).expiresAt, password);
  }
}
