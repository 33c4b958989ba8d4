/** Two marks on one row: the expiry audit does not look at deleted_at, so a row can come to be
    both deleted and expiry-audited, but only through a deletion whose mark lands late. */
module Marks {
  import opened Base
  import opened PasteTable
  import opened SweepPass
  import opened Lifecycle
  import Bodies

  predicate Both(m: Row) {
    m.deletedAt.Some? && m.auditedAt.Some?
  }

  /** The rows a pass has listed and not yet marked. */
  function Listed(pc: Pc): seq<Id> {
    match pc
    case Sweeping(_, _, todo, ids, _) => todo + ids
    case NotingExpired(_, _, todo, ids, _) => todo + ids
    case MarkingAudited(_, _, ids, _) => ids
    case _ => []
  }

  // --- One step ----------------------------------------------------------------------------

  /** The step is a deletion's mark that takes effect on `id`. */
  predicate MarksDeleted(w: World, step: Step, id: Id) {
    && step.Do? && step.client in w.pcs && step.action.Call? && !step.action.fate.Fails?
    && w.pcs[step.client].MarkingDeleted? && w.pcs[step.client].id == id
  }

  /** The step is a pass's mark that takes effect on `id`. */
  predicate MarksAudited(w: World, step: Step, id: Id) {
    && step.Do? && step.client in w.pcs && step.action.Call? && !step.action.fate.Fails?
    && w.pcs[step.client].MarkingAudited? && id in w.pcs[step.client].ids
  }

  lemma DeleteMarks(w: World, pc: Pc, a: Action, id: Id)
    requires DeletePc(pc) && DeleteFits(pc, a) && id in w.rows
    ensures var t := DeleteEffect(w, pc, a);
            && id in t.rows && t.rows[id].auditedAt == w.rows[id].auditedAt
            && (t.rows[id].deletedAt.Some? <==>
                  w.rows[id].deletedAt.Some? || (pc.MarkingDeleted? && pc.id == id && !a.fate.Fails?))
  {
  }

  lemma SweepMarks(w: World, pc: Pc, a: Action, id: Id)
    requires SweepPc(pc) && SweepFits(pc, a) && id in w.rows && id in SweepEffect(w, pc, a).rows
    ensures var t := SweepEffect(w, pc, a);
            && t.rows[id].deletedAt == w.rows[id].deletedAt
            && (t.rows[id].auditedAt.Some? <==>
                  w.rows[id].auditedAt.Some? || (pc.MarkingAudited? && id in pc.ids && !a.fate.Fails?))
  {
    if pc.Purging? {
      PurgeFrame(w, pc.now, pc.cfg, a.fate);
    }
  }

  lemma CreateMarks(w: World, pc: Pc, a: Action, id: Id)
    requires CreatePc(pc) && CreateFits(w, pc, a) && id in w.rows
    ensures id in CreateEffect(w, pc, a).rows && CreateEffect(w, pc, a).rows[id] == w.rows[id]
  {
  }

  lemma ActMarks(w: World, c: Client, a: Action, id: Id)
    requires c in w.pcs && Fits(w, w.pcs[c], a) && id in w.rows && id in Effect(w, w.pcs[c], a).rows
    ensures var t := Effect(w, w.pcs[c], a);
            && (t.rows[id].deletedAt.Some? <==> w.rows[id].deletedAt.Some? || MarksDeleted(w, Do(c, a), id))
            && (t.rows[id].auditedAt.Some? <==> w.rows[id].auditedAt.Some? || MarksAudited(w, Do(c, a), id))
  {
    var pc := w.pcs[c];
    if a.Crash? {
    } else if CreatePc(pc) {
      CreateMarks(w, pc, a, id);
    } else if DeletePc(pc) {
      DeleteMarks(w, pc, a, id);
    } else if SweepPc(pc) {
      SweepMarks(w, pc, a, id);
    } else {
      ReadFrame(w, pc, a);
    }
  }

  /** A step gives a row its second mark exactly when it is a deletion's mark landing on an
      audited row, or a pass's mark landing on a deleted one. */
  lemma SecondMarkExactly(w: World, step: Step, id: Id)
    requires id in w.rows && id in Next(w, step).rows && !Both(w.rows[id])
    ensures Both(Next(w, step).rows[id])
       <==> || (MarksDeleted(w, step, id) && w.rows[id].auditedAt.Some?)
            || (MarksAudited(w, step, id) && w.rows[id].deletedAt.Some?)
  {
    if step.Do? && step.client in w.pcs && Fits(w, w.pcs[step.client], step.action) {
      ActMarks(w, step.client, step.action, id);
    } else if step.Do? && step.client !in w.pcs && StartFits(w, step.action) {
      StartFrame(w, step.action);
    }
  }

  // --- Timely deletions --------------------------------------------------------------------

  /** A deletion's mark lands before the row's expiry. */
  predicate Timely(w: World, step: Step) {
    forall id :: id in w.rows && MarksDeleted(w, step, id) ==> w.clock < w.rows[id].expiresAt
  }

  /** Expired and not deleted, if it is still there. */
  predicate Overdue(rows: Table, clock: int, id: Id) {
    id in rows ==> rows[id].expiresAt <= clock && rows[id].deletedAt.None?
  }

  predicate RowsSingle(rows: Table, clock: int) {
    forall id :: id in rows && rows[id].auditedAt.Some? ==> Overdue(rows, clock, id)
  }

  predicate PcOverdue(rows: Table, clock: int, pc: Pc) {
    (SweepPc(pc) ==> pc.now <= clock) && forall id :: id in Listed(pc) ==> Overdue(rows, clock, id)
  }

  predicate Inv(w: World) {
    RowsSingle(w.rows, w.clock) && forall c :: c in w.pcs ==> PcOverdue(w.rows, w.clock, w.pcs[c])
  }

  /** Rows known to be overdue stay so. */
  predicate StillOverdue(born: map<Id, int>, rows: Table, after: Table, clock: int) {
    forall id :: id in born && Overdue(rows, clock, id) ==> Overdue(after, clock, id)
  }

  lemma ListedWereBorn(bodies: map<Id, Body>, born: map<Id, int>, issued: set<Id>, pc: Pc, id: Id)
    requires Bodies.PcInv(bodies, born, issued, pc) && id in Listed(pc)
    ensures id in born
  {
    assert id in Bodies.Known(pc) + Bodies.Cleared(pc);
  }

  lemma ShiftKeepsInv(w: World, t: World, c: Client, next: Option<Pc>)
    requires Bodies.Inv(w) && Inv(w) && t.pcs == w.pcs && t.clock == w.clock
    requires StillOverdue(w.book.born, w.rows, t.rows, w.clock) && RowsSingle(t.rows, w.clock)
    requires next.Some? ==> PcOverdue(t.rows, w.clock, next.value)
    ensures Inv(Shift(t, c, next))
  {
    forall d | d in w.pcs ensures PcOverdue(t.rows, w.clock, w.pcs[d]) {
      assert PcOverdue(w.rows, w.clock, w.pcs[d]);
      forall id | id in Listed(w.pcs[d]) ensures Overdue(t.rows, w.clock, id) {
        ListedWereBorn(w.bodies, w.book.born, w.book.issued, w.pcs[d], id);
      }
    }
  }

  lemma CreateRows(w: World, pc: Pc, a: Action)
    requires CreatePc(pc) && CreateFits(w, pc, a) && RowsSingle(w.rows, w.clock)
    requires pc.Inserting? ==> pc.id !in w.book.born && !Completed(pc.m)
    ensures var t := CreateEffect(w, pc, a);
            StillOverdue(w.book.born, w.rows, t.rows, w.clock) && RowsSingle(t.rows, w.clock)
    ensures var next := CreateMove(w, pc, a); next.Some? ==> CreatePc(next.value)
  {
    var t := CreateEffect(w, pc, a);
    if pc.Inserting? && t.rows != w.rows {
      var row := Stored(w.cfg.grain, pc.m);
      assert t.rows == w.rows[pc.id := row] && row.auditedAt.None?;
    }
  }

  lemma CreateKeepsInv(w: World, c: Client, a: Action)
    requires Bodies.Inv(w) && Inv(w) && c in w.pcs && CreatePc(w.pcs[c]) && CreateFits(w, w.pcs[c], a)
    ensures Inv(Shift(CreateEffect(w, w.pcs[c], a), c, CreateMove(w, w.pcs[c], a)))
  {
    assert Bodies.PcInv(w.bodies, w.book.born, w.book.issued, w.pcs[c]);
    CreateFrame(w, w.pcs[c], a);
    CreateRows(w, w.pcs[c], a);
    ShiftKeepsInv(w, CreateEffect(w, w.pcs[c], a), c, CreateMove(w, w.pcs[c], a));
  }

  /** A mark that lands before the expiry meets a row no pass has listed. */
  lemma DeleteRows(w: World, pc: Pc, a: Action)
    requires DeletePc(pc) && DeleteFits(pc, a) && RowsSingle(w.rows, w.clock)
    requires pc.MarkingDeleted? && !a.fate.Fails? && pc.id in w.rows ==> w.clock < w.rows[pc.id].expiresAt
    ensures var t := DeleteEffect(w, pc, a);
            StillOverdue(w.book.born, w.rows, t.rows, w.clock) && RowsSingle(t.rows, w.clock)
  {
    var t := DeleteEffect(w, pc, a);
    forall id | id in w.rows ensures id in t.rows && (t.rows[id] == w.rows[id] || w.clock < w.rows[id].expiresAt)
                                     && t.rows[id].auditedAt == w.rows[id].auditedAt {
      DeleteMarks(w, pc, a, id);
    }
  }

  lemma DeleteKeepsInv(w: World, c: Client, a: Action)
    requires Bodies.Inv(w) && Inv(w) && c in w.pcs && DeletePc(w.pcs[c]) && DeleteFits(w.pcs[c], a)
             && Timely(w, Do(c, a))
    ensures Inv(Shift(DeleteEffect(w, w.pcs[c], a), c, DeleteMove(w, w.pcs[c], a)))
  {
    var pc := w.pcs[c];
    if pc.MarkingDeleted? && !a.fate.Fails? && pc.id in w.rows {
      assert MarksDeleted(w, Do(c, a), pc.id);
    }
    DeleteFrame(w, pc, a);
    DeleteRows(w, pc, a);
    ShiftKeepsInv(w, DeleteEffect(w, pc, a), c, DeleteMove(w, pc, a));
  }

  lemma ReadKeepsInv(w: World, c: Client, a: Action)
    requires Bodies.Inv(w) && Inv(w) && c in w.pcs && ReadPc(w.pcs[c]) && ReadFits(w, w.pcs[c], a)
    ensures Inv(Shift(ReadEffect(w, w.pcs[c], a), c, ReadMove(w, w.pcs[c], a)))
  {
    var t := ReadEffect(w, w.pcs[c], a);
    ReadFrame(w, w.pcs[c], a);
    ReadStaysRead(w, w.pcs[c], a);
    ViewsKeepMarks(w.book.born, w.rows, w.clock, w.pcs[c].id);
    ShiftKeepsInv(w, t, c, ReadMove(w, w.pcs[c], a));
  }

  lemma ViewsKeepMarks(born: map<Id, int>, rows: Table, clock: int, id: Id)
    requires RowsSingle(rows, clock)
    ensures var after := IncrementViews(rows, id); StillOverdue(born, rows, after, clock) && RowsSingle(after, clock)
  {
  }

  lemma ListIsOverdue(rows: Table, now: int, limit: nat, clock: int, id: Id)
    requires now <= clock && id in ListExpiredUnaudited(rows, now, limit)
    ensures Overdue(rows, clock, id)
  {
    OrderedContents(rows, PendingIds(rows, now));
    assert id in Elements(PendingOrder(rows, now));
  }

  lemma OnwardListed(now: int, cfg: SweepConfig, todo: seq<Id>, ids: seq<Id>, retry: bool, id: Id)
    requires Onward(now, cfg, todo, ids, retry).Some? && id in Listed(Onward(now, cfg, todo, ids, retry).value)
    ensures id in todo || id in ids
  {
  }

  lemma SweepMoveListed(w: World, pc: Pc, a: Action, id: Id)
    requires SweepPc(pc) && SweepFits(pc, a) && !pc.Listing?
    requires SweepMove(w, pc, a).Some? && id in Listed(SweepMove(w, pc, a).value)
    ensures id in Listed(pc)
  {
    match pc
    case Sweeping(now, cfg, todo, ids, retry) =>
      if !a.fate.Lands? {
        OnwardListed(now, cfg, todo[1..], ids, true, id);
      }
    case NotingExpired(now, cfg, todo, ids, retry) =>
      OnwardListed(now, cfg, todo[1..], ids + [todo[0]], retry, id);
    case _ =>
  }

  lemma SweepMoveOverdue(w: World, pc: Pc, a: Action)
    requires SweepPc(pc) && SweepFits(pc, a) && PcOverdue(w.rows, w.clock, pc)
    ensures var next := SweepMove(w, pc, a); next.Some? ==> PcOverdue(w.rows, w.clock, next.value)
  {
    var next := SweepMove(w, pc, a);
    SweepStaysSweep(w, pc, a);
    if next.Some? {
      forall id | id in Listed(next.value) ensures Overdue(w.rows, w.clock, id) {
        if pc.Listing? {
          var listed := ListExpiredUnaudited(w.rows, pc.now, pc.cfg.batch);
          OnwardListed(pc.now, pc.cfg, listed, [], |listed| >= pc.cfg.batch, id);
          ListIsOverdue(w.rows, pc.now, pc.cfg.batch, w.clock, id);
        } else {
          SweepMoveListed(w, pc, a, id);
        }
      }
    }
  }

  lemma AuditRows(born: map<Id, int>, rows: Table, clock: int, ids: seq<Id>, at: int)
    requires RowsSingle(rows, clock) && forall id :: id in ids ==> Overdue(rows, clock, id)
    ensures var after := MarkExpiredAudited(rows, ids, at);
            StillOverdue(born, rows, after, clock) && RowsSingle(after, clock)
  {
  }

  lemma FewerRows(born: map<Id, int>, rows: Table, fewer: Table, clock: int)
    requires RowsSingle(rows, clock) && Within(fewer, rows)
    ensures StillOverdue(born, rows, fewer, clock) && RowsSingle(fewer, clock)
  {
    forall id | id in fewer && fewer[id].auditedAt.Some? ensures Overdue(fewer, clock, id) {
      assert Overdue(rows, clock, id);
    }
  }

  lemma SweepRows(w: World, pc: Pc, a: Action)
    requires SweepPc(pc) && SweepFits(pc, a) && PcOverdue(w.rows, w.clock, pc) && RowsSingle(w.rows, w.clock)
    ensures var t := SweepEffect(w, pc, a);
            StillOverdue(w.book.born, w.rows, t.rows, w.clock) && RowsSingle(t.rows, w.clock)
  {
    if pc.Purging? {
      PurgeFrame(w, pc.now, pc.cfg, a.fate);
      FewerRows(w.book.born, w.rows, PurgeEffect(w, pc.now, pc.cfg, a.fate).rows, w.clock);
    } else if pc.MarkingAudited? {
      AuditRows(w.book.born, w.rows, w.clock, pc.ids, pc.now);
    } else {
      FewerRows(w.book.born, w.rows, w.rows, w.clock);
    }
  }

  lemma SweepKeepsInv(w: World, c: Client, a: Action)
    requires Bodies.Inv(w) && Inv(w) && c in w.pcs && SweepPc(w.pcs[c]) && SweepFits(w.pcs[c], a)
    ensures Inv(Shift(SweepEffect(w, w.pcs[c], a), c, SweepMove(w, w.pcs[c], a)))
  {
    var pc, t, next := w.pcs[c], SweepEffect(w, w.pcs[c], a), SweepMove(w, w.pcs[c], a);
    assert PcOverdue(w.rows, w.clock, pc) && Bodies.PcInv(w.bodies, w.book.born, w.book.issued, pc);
    SweepFrame(w, pc, a);
    SweepRows(w, pc, a);
    SweepMoveOverdue(w, pc, a);
    if next.Some? {
      forall id | id in Listed(next.value) ensures Overdue(t.rows, w.clock, id) {
        MoveListedWereBorn(w, c, a, id);
      }
    }
    ShiftKeepsInv(w, t, c, next);
  }

  lemma MoveListedWereBorn(w: World, c: Client, a: Action, id: Id)
    requires Bodies.Inv(w) && c in w.pcs && SweepPc(w.pcs[c]) && SweepFits(w.pcs[c], a)
    requires SweepMove(w, w.pcs[c], a).Some? && id in Listed(SweepMove(w, w.pcs[c], a).value)
    ensures id in w.book.born
  {
    var pc := w.pcs[c];
    assert Bodies.PcInv(w.bodies, w.book.born, w.book.issued, pc);
    if pc.Listing? {
      var listed := ListExpiredUnaudited(w.rows, pc.now, pc.cfg.batch);
      OnwardListed(pc.now, pc.cfg, listed, [], |listed| >= pc.cfg.batch, id);
      Bodies.ListedExist(w.rows, pc.now, pc.cfg.batch);
      assert id in Elements(listed);
    } else {
      SweepMoveListed(w, pc, a, id);
      ListedWereBorn(w.bodies, w.book.born, w.book.issued, pc, id);
    }
  }

  lemma ActKeepsInv(w: World, c: Client, a: Action)
    requires Bodies.Inv(w) && Inv(w) && c in w.pcs && Fits(w, w.pcs[c], a) && Timely(w, Do(c, a))
    ensures Inv(Shift(Effect(w, w.pcs[c], a), c, Move(w, w.pcs[c], a)))
  {
    var pc := w.pcs[c];
    if a.Crash? {
      FewerRows(w.book.born, w.rows, w.rows, w.clock);
      ShiftKeepsInv(w, Effect(w, pc, a), c, None);
    } else if CreatePc(pc) {
      CreateKeepsInv(w, c, a);
    } else if DeletePc(pc) {
      DeleteKeepsInv(w, c, a);
    } else if SweepPc(pc) {
      SweepKeepsInv(w, c, a);
    } else {
      ReadKeepsInv(w, c, a);
    }
  }

  lemma StepKeepsInv(w: World, step: Step)
    requires Bodies.Inv(w) && Inv(w) && Timely(w, step)
    ensures Inv(Next(w, step))
  {
    match step
    case Do(c, a) =>
      if c !in w.pcs {
        if StartFits(w, a) {
          StartFrame(w, a);
          FewerRows(w.book.born, w.rows, w.rows, w.clock);
          ShiftKeepsInv(w, StartEffect(w, a), c, Some(StartPc(w, a)));
        }
      } else if Fits(w, w.pcs[c], a) {
        ActKeepsInv(w, c, a);
      }
    case _ =>
      TimeKeepsInv(w, Next(w, step));
  }

  lemma TimeKeepsInv(w: World, t: World)
    requires Inv(w) && t.rows == w.rows && t.pcs == w.pcs && w.clock <= t.clock
    ensures Inv(t)
  {
    forall c | c in w.pcs ensures PcOverdue(t.rows, t.clock, w.pcs[c]) {
      assert PcOverdue(w.rows, w.clock, w.pcs[c]);
    }
  }

  /** Every deletion's mark in the run lands before the row's expiry. */
  predicate TimelyRun(w: World, steps: seq<Step>) {
    forall i :: 0 <= i < |steps| ==> Timely(Run(w, steps[..i]), steps[i])
  }

  lemma {:induction false} RunKeepsInv(cfg: Config, clock: int, steps: seq<Step>)
    requires TimelyRun(Initial(cfg, clock), steps)
    ensures Inv(Run(Initial(cfg, clock), steps))
  {
    if steps != [] {
      var before := steps[..|steps| - 1];
      forall i | 0 <= i < |before| ensures Timely(Run(Initial(cfg, clock), before[..i]), before[i]) {
        assert before[..i] == steps[..i];
      }
      RunKeepsInv(cfg, clock, before);
      Bodies.RunKeepsInv(cfg, clock, before);
      StepKeepsInv(Run(Initial(cfg, clock), before), steps[|steps| - 1]);
    }
  }

  /** Over any run in which deletions mark their rows before they expire, no row is ever both
      deleted and expiry-audited, however many sweepers there are. */
  lemma NeverBoth(cfg: Config, clock: int, steps: seq<Step>, id: Id)
    requires TimelyRun(Initial(cfg, clock), steps)
    ensures var w := Run(Initial(cfg, clock), steps); id in w.rows ==> !Both(w.rows[id])
  {
    RunKeepsInv(cfg, clock, steps);
  }
}
