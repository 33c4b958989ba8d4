/** Where bodies can be: what every interleaving of the lifecycle keeps between the body store
    and the table. */
module Bodies {
  import opened Base
  import opened PasteTable
  import opened SweepPass
  import opened Lifecycle

  /** A Create that has not inserted its row. */
  predicate Unborn(pc: Pc) {
    pc.Sealing? || pc.Timing? || pc.Putting? || pc.Inserting?
  }

  /** Rows whose body a client has seen deleted and is about to mark, or will list as such. */
  function Cleared(pc: Pc): set<Id> {
    match pc
    case MarkingDeleted(id, _, _) => {id}
    case Sweeping(_, _, _, ids, _) => Elements(ids)
    case NotingExpired(_, _, todo, ids, _) => Elements(ids) + (if todo == [] then {} else {todo[0]})
    case MarkingAudited(_, _, ids, _) => Elements(ids)
    case _ => {}
  }

  /** Rows a client knows to have existed. */
  function Known(pc: Pc): set<Id> {
    match pc
    case DeleteTiming(id, _, _) => {id}
    case DeletingBody(id, _, _) => {id}
    case Sweeping(_, _, todo, _, _) => Elements(todo)
    case NotingExpired(_, _, todo, _, _) => Elements(todo)
    case _ => {}
  }

  predicate PcInv(bodies: map<Id, Body>, born: map<Id, int>, issued: set<Id>, pc: Pc) {
    && (Unborn(pc) ==> pc.id in issued && pc.id !in born && !Completed(pc.m))
    && Known(pc) <= born.Keys
    && Cleared(pc) <= born.Keys && Cleared(pc) !! bodies.Keys
  }

  /** No two Creates that still have to insert share an id. */
  predicate Apart(pcs: map<Client, Pc>) {
    forall c, d :: c in pcs && d in pcs && Unborn(pcs[c]) && Unborn(pcs[d]) && pcs[c].id == pcs[d].id ==> c == d
  }

  predicate PcsInv(bodies: map<Id, Body>, born: map<Id, int>, issued: set<Id>, pcs: map<Client, Pc>) {
    (forall c :: c in pcs ==> PcInv(bodies, born, issued, pcs[c])) && Apart(pcs)
  }

  /** No row marked deleted or expiry-audited has a body. */
  predicate RowsInv(rows: Table, bodies: map<Id, Body>, born: map<Id, int>) {
    && rows.Keys <= born.Keys
    && forall id :: id in rows && Completed(rows[id]) ==> id !in bodies
  }

  predicate Inv(w: World) {
    && w.book.born.Keys <= w.book.issued && w.bodies.Keys <= w.book.issued
    && RowsInv(w.rows, w.bodies, w.book.born)
    && PcsInv(w.bodies, w.book.born, w.book.issued, w.pcs)
  }

  // --- How one client's claims survive the others ------------------------------------------

  lemma PcShrink(bodies: map<Id, Body>, fewer: map<Id, Body>, born: map<Id, int>, issued: set<Id>, pc: Pc)
    requires PcInv(bodies, born, issued, pc) && fewer.Keys <= bodies.Keys
    ensures PcInv(fewer, born, issued, pc)
  {
  }

  lemma PcPut(bodies: map<Id, Body>, born: map<Id, int>, issued: set<Id>, pc: Pc, id: Id, body: Body)
    requires PcInv(bodies, born, issued, pc) && id !in born
    ensures PcInv(bodies[id := body], born, issued, pc)
  {
  }

  lemma PcBirth(bodies: map<Id, Body>, born: map<Id, int>, issued: set<Id>, pc: Pc, id: Id, expiry: int)
    requires PcInv(bodies, born, issued, pc) && !(Unborn(pc) && pc.id == id)
    ensures PcInv(bodies, born[id := expiry], issued, pc)
  {
    assert born[id := expiry].Keys == born.Keys + {id};
  }

  lemma PcIssue(bodies: map<Id, Body>, born: map<Id, int>, issued: set<Id>, pc: Pc, id: Id)
    requires PcInv(bodies, born, issued, pc)
    ensures PcInv(bodies, born, issued + {id}, pc)
  {
  }

  /** All clients are sound when the one that moved is and the others still are. */
  lemma PcsAfter(pcs: map<Client, Pc>, bodies: map<Id, Body>, born: map<Id, int>, issued: set<Id>, c: Client,
                 pc: Option<Pc>)
    requires Apart(pcs)
    requires forall d :: d in pcs && d != c ==> PcInv(bodies, born, issued, pcs[d])
    requires pc.Some? ==> PcInv(bodies, born, issued, pc.value)
    requires pc.Some? && Unborn(pc.value) ==> forall d :: d in pcs && d != c && Unborn(pcs[d]) ==>
               pcs[d].id != pc.value.id
    ensures PcsInv(bodies, born, issued, Moved(pcs, c, pc))
  {
  }

  /** A step that leaves the table alone and at most removes bodies. */
  lemma QuietKeepsInv(w: World, t: World, c: Client, pc: Option<Pc>)
    requires Inv(w) && t.rows == w.rows && t.book.born == w.book.born && t.book.issued == w.book.issued
    requires t.bodies.Keys <= w.bodies.Keys && t.pcs == Moved(w.pcs, c, pc)
    requires pc.Some? ==> PcInv(t.bodies, w.book.born, w.book.issued, pc.value)
    requires pc.Some? && Unborn(pc.value) ==> c in w.pcs && Unborn(w.pcs[c]) && w.pcs[c].id == pc.value.id
    ensures Inv(t)
  {
    forall d | d in w.pcs && d != c ensures PcInv(t.bodies, w.book.born, w.book.issued, w.pcs[d]) {
      PcShrink(w.bodies, t.bodies, w.book.born, w.book.issued, w.pcs[d]);
    }
    PcsAfter(w.pcs, t.bodies, w.book.born, w.book.issued, c, pc);
  }

  /** A step that changes rows, without unmarking or adding any, only where bodies are gone. */
  lemma RowsKeepInv(w: World, t: World, c: Client, pc: Option<Pc>)
    requires Inv(w) && t.bodies == w.bodies && t.book.born == w.book.born && t.book.issued == w.book.issued
    requires t.rows.Keys <= w.rows.Keys && t.pcs == Moved(w.pcs, c, pc)
    requires forall id :: id in t.rows && Completed(t.rows[id]) ==> Completed(w.rows[id]) || id !in w.bodies
    requires pc.Some? ==> PcInv(w.bodies, w.book.born, w.book.issued, pc.value) && !Unborn(pc.value)
    ensures Inv(t)
  {
    PcsAfter(w.pcs, w.bodies, w.book.born, w.book.issued, c, pc);
  }

  // --- Create ------------------------------------------------------------------------------

  /** A Create takes an id no one has. */
  lemma IssueKeepsInv(w: World, t: World, c: Client, pc: Pc)
    requires Inv(w) && c !in w.pcs && pc.Sealing? && pc.id !in w.book.issued && !Completed(pc.m)
    requires t.(book := w.book) == w && t.book.issued == w.book.issued + {pc.id} && t.book.born == w.book.born
    ensures Inv(Shift(t, c, Some(pc)))
  {
    forall d | d in w.pcs
      ensures PcInv(w.bodies, w.book.born, t.book.issued, w.pcs[d]) && !(Unborn(w.pcs[d]) && w.pcs[d].id == pc.id)
    {
      PcIssue(w.bodies, w.book.born, w.book.issued, w.pcs[d], pc.id);
    }
    PcsAfter(w.pcs, w.bodies, w.book.born, t.book.issued, c, Some(pc));
  }

  /** A body appears only under an id that has never had a row. */
  lemma PutKeepsInv(w: World, c: Client, a: Action)
    requires Inv(w) && c in w.pcs && w.pcs[c].Putting? && CreateFits(w, w.pcs[c], a)
    ensures Inv(Shift(CreateEffect(w, w.pcs[c], a), c, CreateMove(w, w.pcs[c], a)))
  {
    var pc, t, next := w.pcs[c], CreateEffect(w, w.pcs[c], a), CreateMove(w, w.pcs[c], a);
    assert PcInv(w.bodies, w.book.born, w.book.issued, pc);
    if t == w {
      QuietKeepsInv(w, Shift(t, c, next), c, next);
    } else {
      forall d | d in w.pcs ensures PcInv(t.bodies, w.book.born, w.book.issued, w.pcs[d]) {
        PcPut(w.bodies, w.book.born, w.book.issued, w.pcs[d], pc.id, t.bodies[pc.id]);
      }
      PcsAfter(w.pcs, t.bodies, w.book.born, w.book.issued, c, next);
    }
  }

  /** An insert gives birth to an id no other pending Create holds. */
  lemma InsertKeepsInv(w: World, c: Client, a: Action)
    requires Inv(w) && c in w.pcs && w.pcs[c].Inserting? && CreateFits(w, w.pcs[c], a)
    ensures Inv(Shift(CreateEffect(w, w.pcs[c], a), c, CreateMove(w, w.pcs[c], a)))
  {
    var pc, t, next := w.pcs[c], CreateEffect(w, w.pcs[c], a), CreateMove(w, w.pcs[c], a);
    assert PcInv(w.bodies, w.book.born, w.book.issued, pc);
    if t == w {
      QuietKeepsInv(w, Shift(t, c, next), c, next);
    } else {
      forall d | d in w.pcs && d != c ensures PcInv(w.bodies, t.book.born, w.book.issued, w.pcs[d]) {
        PcBirth(w.bodies, w.book.born, w.book.issued, w.pcs[d], pc.id, t.book.born[pc.id]);
      }
      PcsAfter(w.pcs, w.bodies, t.book.born, w.book.issued, c, next);
    }
  }

  lemma CreateKeepsInv(w: World, c: Client, a: Action)
    requires Inv(w) && c in w.pcs && CreatePc(w.pcs[c]) && CreateFits(w, w.pcs[c], a)
    ensures Inv(Shift(CreateEffect(w, w.pcs[c], a), c, CreateMove(w, w.pcs[c], a)))
  {
    var pc := w.pcs[c];
    if pc.Putting? {
      PutKeepsInv(w, c, a);
    } else if pc.Inserting? {
      InsertKeepsInv(w, c, a);
    } else {
      assert PcInv(w.bodies, w.book.born, w.book.issued, pc);
      QuietKeepsInv(w, Shift(CreateEffect(w, pc, a), c, CreateMove(w, pc, a)), c, CreateMove(w, pc, a));
    }
  }

  // --- Delete, Read and Sweep --------------------------------------------------------------

  /** What RowsKeepInv and QuietKeepsInv have in common, for a client past its Create. */
  lemma MarkKeepsInv(w: World, t: World, c: Client, next: Option<Pc>)
    requires Inv(w) && t.book.born == w.book.born && t.book.issued == w.book.issued && t.pcs == w.pcs
    requires (t.rows == w.rows && t.bodies.Keys <= w.bodies.Keys)
          || (t.bodies == w.bodies && t.rows.Keys <= w.rows.Keys
              && forall id :: id in t.rows && Completed(t.rows[id]) ==> Completed(w.rows[id]) || id !in w.bodies)
    requires next.Some? ==> PcInv(t.bodies, w.book.born, w.book.issued, next.value) && !Unborn(next.value)
    ensures Inv(Shift(t, c, next))
  {
    if t.rows == w.rows && t.bodies.Keys <= w.bodies.Keys {
      QuietKeepsInv(w, Shift(t, c, next), c, next);
    } else {
      RowsKeepInv(w, Shift(t, c, next), c, next);
    }
  }

  lemma DeleteKeepsInv(w: World, c: Client, a: Action)
    requires Inv(w) && c in w.pcs && DeletePc(w.pcs[c]) && DeleteFits(w.pcs[c], a)
    ensures Inv(Shift(DeleteEffect(w, w.pcs[c], a), c, DeleteMove(w, w.pcs[c], a)))
  {
    assert PcInv(w.bodies, w.book.born, w.book.issued, w.pcs[c]);
    MarkKeepsInv(w, DeleteEffect(w, w.pcs[c], a), c, DeleteMove(w, w.pcs[c], a));
  }

  lemma ReadKeepsInv(w: World, c: Client, a: Action)
    requires Inv(w) && c in w.pcs && ReadPc(w.pcs[c]) && ReadFits(w, w.pcs[c], a)
    ensures Inv(Shift(ReadEffect(w, w.pcs[c], a), c, ReadMove(w, w.pcs[c], a)))
  {
    ReadFrame(w, w.pcs[c], a);
    ReadStaysRead(w, w.pcs[c], a);
    ReadLikeKeepsInv(w, ReadEffect(w, w.pcs[c], a), c, w.pcs[c].id, ReadMove(w, w.pcs[c], a));
  }

  lemma ReadLikeKeepsInv(w: World, t: World, c: Client, id: Id, next: Option<Pc>)
    requires Inv(w) && t.bodies == w.bodies && t.pcs == w.pcs && t.book.born == w.book.born
             && t.book.issued == w.book.issued
    requires t.rows == w.rows || t.rows == IncrementViews(w.rows, id)
    requires next.Some? ==> ReadPc(next.value)
    ensures Inv(Shift(t, c, next))
  {
    MarkKeepsInv(w, t, c, next);
  }

  lemma ListedExist(t: Table, now: int, limit: nat)
    ensures Elements(ListExpiredUnaudited(t, now, limit)) <= t.Keys
  {
    OrderedContents(t, PendingIds(t, now));
    var r := ListExpiredUnaudited(t, now, limit);
    forall x | x in r ensures x in t {
      assert x in Elements(PendingOrder(t, now));
    }
  }

  /** Wherever a pass goes next, it still knows only rows that existed and lists only rows
      without a body. */
  lemma OnwardIsSound(bodies: map<Id, Body>, born: map<Id, int>, issued: set<Id>,
                      now: int, cfg: SweepConfig, todo: seq<Id>, ids: seq<Id>, retry: bool)
    requires Elements(todo) <= born.Keys && Elements(ids) <= born.Keys && Elements(ids) !! bodies.Keys
    ensures var pc := Onward(now, cfg, todo, ids, retry); pc.Some? ==>
              PcInv(bodies, born, issued, pc.value) && !Unborn(pc.value)
  {
  }

  predicate Sound(w: World, t: World, next: Option<Pc>) {
    next.Some? ==> PcInv(t.bodies, w.book.born, w.book.issued, next.value) && !Unborn(next.value)
  }

  lemma ListingIsSound(w: World, pc: Pc, a: Action)
    requires Inv(w) && pc.Listing? && SweepFits(pc, a)
    ensures Sound(w, w, SweepMove(w, pc, a))
  {
    var listed := ListExpiredUnaudited(w.rows, pc.now, pc.cfg.batch);
    ListedExist(w.rows, pc.now, pc.cfg.batch);
    OnwardIsSound(w.bodies, w.book.born, w.book.issued, pc.now, pc.cfg, listed, [], |listed| >= pc.cfg.batch);
  }

  lemma SweepingIsSound(w: World, pc: Pc, a: Action)
    requires pc.Sweeping? && SweepFits(pc, a) && PcInv(w.bodies, w.book.born, w.book.issued, pc)
    ensures Sound(w, DropBody(w, pc.todo[0], a.fate), SweepMove(w, pc, a))
  {
    var t := DropBody(w, pc.todo[0], a.fate);
    assert pc.todo[0] in Elements(pc.todo) && Elements(pc.todo[1..]) <= Elements(pc.todo);
    OnwardIsSound(t.bodies, w.book.born, w.book.issued, pc.now, pc.cfg, pc.todo[1..], pc.ids, true);
  }

  lemma NotingIsSound(w: World, pc: Pc, a: Action)
    requires pc.NotingExpired? && SweepFits(pc, a) && PcInv(w.bodies, w.book.born, w.book.issued, pc)
    ensures Sound(w, w, SweepMove(w, pc, a))
  {
    assert Elements(pc.todo[1..]) <= Elements(pc.todo);
    assert Elements(pc.ids + [pc.todo[0]]) == Elements(pc.ids) + {pc.todo[0]};
    OnwardIsSound(w.bodies, w.book.born, w.book.issued, pc.now, pc.cfg, pc.todo[1..], pc.ids + [pc.todo[0]], pc.retry);
  }

  /** Marking touches only listed rows, which have no body. */
  lemma MarkAuditedKeepsInv(w: World, c: Client, now: int, ids: seq<Id>, fate: Fate, next: Option<Pc>)
    requires Inv(w) && Elements(ids) !! w.bodies.Keys && Sound(w, w, next)
    ensures Inv(Shift(MarkEffect(w, now, ids, fate), c, next))
  {
    forall id | id in ids ensures id !in w.bodies {
      assert id in Elements(ids);
    }
    MarkKeepsInv(w, MarkEffect(w, now, ids, fate), c, next);
  }

  /** Purging only removes rows. */
  lemma FewerRowsKeepInv(w: World, t: World, c: Client)
    requires Inv(w) && Same(w, t) && Within(t.rows, w.rows)
    ensures Inv(Shift(t, c, None))
  {
    MarkKeepsInv(w, t, c, None);
  }

  lemma SweepKeepsInv(w: World, c: Client, a: Action)
    requires Inv(w) && c in w.pcs && SweepPc(w.pcs[c]) && SweepFits(w.pcs[c], a)
    ensures Inv(Shift(SweepEffect(w, w.pcs[c], a), c, SweepMove(w, w.pcs[c], a)))
  {
    var pc := w.pcs[c];
    assert PcInv(w.bodies, w.book.born, w.book.issued, pc);
    if pc.Listing? {
      ListingIsSound(w, pc, a);
      MarkKeepsInv(w, w, c, SweepMove(w, pc, a));
    } else if pc.Sweeping? {
      SweepingIsSound(w, pc, a);
      MarkKeepsInv(w, DropBody(w, pc.todo[0], a.fate), c, SweepMove(w, pc, a));
    } else if pc.NotingExpired? {
      NotingIsSound(w, pc, a);
      MarkKeepsInv(w, Lifecycle.Record(w, PasteExpired(pc.todo[0])), c, SweepMove(w, pc, a));
    } else if pc.MarkingAudited? {
      MarkAuditedKeepsInv(w, c, pc.now, pc.ids, a.fate, SweepMove(w, pc, a));
    } else {
      PurgeFrame(w, pc.now, pc.cfg, a.fate);
      FewerRowsKeepInv(w, PurgeEffect(w, pc.now, pc.cfg, a.fate), c);
    }
  }

  // --- Every run ---------------------------------------------------------------------------

  lemma StartKeepsInv(w: World, c: Client, a: Action)
    requires Inv(w) && c !in w.pcs && StartFits(w, a)
    ensures Inv(Shift(StartEffect(w, a), c, Some(StartPc(w, a))))
  {
    StartFrame(w, a);
    if a.BeginCreate? {
      IssueKeepsInv(w, StartEffect(w, a), c, StartPc(w, a));
    } else {
      MarkKeepsInv(w, w, c, Some(StartPc(w, a)));
    }
  }

  lemma CrashKeepsInv(w: World, c: Client)
    requires Inv(w) && c in w.pcs
    ensures Inv(Shift(Effect(w, w.pcs[c], Crash), c, None))
  {
    QuietKeepsInv(w, Shift(Effect(w, w.pcs[c], Crash), c, None), c, None);
  }

  lemma MoveKeepsInv(w: World, c: Client, a: Action)
    requires Inv(w) && c in w.pcs && Fits(w, w.pcs[c], a)
    ensures Inv(Shift(Effect(w, w.pcs[c], a), c, Move(w, w.pcs[c], a)))
  {
    var pc := w.pcs[c];
    if a.Crash? {
      CrashKeepsInv(w, c);
    } else if CreatePc(pc) {
      CreateKeepsInv(w, c, a);
    } else if DeletePc(pc) {
      DeleteKeepsInv(w, c, a);
    } else if SweepPc(pc) {
      SweepKeepsInv(w, c, a);
    } else {
      ReadKeepsInv(w, c, a);
    }
  }

  lemma ActKeepsInv(w: World, c: Client, a: Action)
    requires Inv(w)
    ensures Inv(Act(w, c, a))
  {
    if c !in w.pcs {
      if StartFits(w, a) {
        StartKeepsInv(w, c, a);
      }
    } else if Fits(w, w.pcs[c], a) {
      MoveKeepsInv(w, c, a);
    }
  }

  /** Losing bodies by expiry or restart takes nothing from any claim. */
  lemma FewerBodiesKeepInv(w: World, t: World)
    requires Inv(w) && t.rows == w.rows && t.book == w.book && t.pcs == w.pcs && t.bodies.Keys <= w.bodies.Keys
    ensures Inv(t)
  {
    forall d | d in w.pcs ensures PcInv(t.bodies, w.book.born, w.book.issued, w.pcs[d]) {
      PcShrink(w.bodies, t.bodies, w.book.born, w.book.issued, w.pcs[d]);
    }
  }

  lemma StepKeepsInv(w: World, step: Step)
    requires Inv(w)
    ensures Inv(Next(w, step))
  {
    match step
    case Do(c, a) => ActKeepsInv(w, c, a);
    case _ => FewerBodiesKeepInv(w, Next(w, step));
  }

  lemma {:induction false} RunKeepsInv(cfg: Config, clock: int, steps: seq<Step>)
    ensures Inv(Run(Initial(cfg, clock), steps))
  {
    if steps != [] {
      RunKeepsInv(cfg, clock, steps[..|steps| - 1]);
      StepKeepsInv(Run(Initial(cfg, clock), steps[..|steps| - 1]), steps[|steps| - 1]);
    }
  }

  /** In no reachable state does a row marked deleted or expiry-audited have a body, so the
      completed purge never leaves one behind. */
  lemma MarkedRowsHaveNoBody(cfg: Config, clock: int, steps: seq<Step>, cutoff: int)
    ensures var w := Run(Initial(cfg, clock), steps);
            && (forall id :: id in w.rows && (w.rows[id].deletedAt.Some? || w.rows[id].auditedAt.Some?) ==>
                  id !in w.bodies)
            && (forall id :: id in w.rows && id !in PurgeCompletedOlderThan(w.rows, cutoff) ==> id !in w.bodies)
  {
    RunKeepsInv(cfg, clock, steps);
  }
}
