/** Rows as the table really holds them: built as Create builds them, and gone only once
    expired, whichever purge removed them. */
module Aging {
  import opened Base
  import opened PasteTable
  import opened SweepPass
  import opened Lifecycle
  import Bodies
  import Reads

  /** A pending Create's row has the expiry its lifetime gives it; a pass looks at the past. */
  predicate PcAged(clock: int, pc: Pc) {
    && (Bodies.Unborn(pc) ==> pc.m.expiresAt == pc.m.createdAt + pc.m.ttlSeconds * SECOND)
    && (SweepPc(pc) ==> pc.now <= clock && (pc.Purging? ==> pc.cfg.retentionDays >= 1))
  }

  predicate PcsAged(clock: int, pcs: map<Client, Pc>) {
    forall c :: c in pcs ==> PcAged(clock, pcs[c])
  }

  /** Rows that are gone had expired. */
  predicate Departed(rows: Table, born: map<Id, int>, clock: int) {
    forall id :: id in born && id !in rows ==> born[id] <= clock
  }

  predicate Aged(w: World) {
    WellBuilt(w.rows) && Departed(w.rows, w.book.born, w.clock) && PcsAged(w.clock, w.pcs)
  }

  lemma ShiftKeepsAged(w: World, t: World, c: Client, next: Option<Pc>)
    requires Aged(w) && t.clock == w.clock && t.pcs == w.pcs && WellBuilt(t.rows)
             && Departed(t.rows, t.book.born, t.clock)
    requires next.Some? ==> PcAged(w.clock, next.value)
    ensures Aged(Shift(t, c, next))
  {
  }

  // --- Create ------------------------------------------------------------------------------

  lemma StoredKeepsAged(rows: Table, born: map<Id, int>, clock: int, grain: Grain, id: Id, m: Row)
    requires WellBuilt(rows) && Departed(rows, born, clock) && Insertable(rows, id, m)
    requires m.expiresAt == m.createdAt + m.ttlSeconds * SECOND
    ensures var row := Stored(grain, m);
            WellBuilt(rows[id := row]) && Departed(rows[id := row], born[id := row.expiresAt], clock)
  {
    StoredIsWellBuilt(grain, m);
  }

  lemma InsertKeepsAged(w: World, pc: Pc, a: Action)
    requires pc.Inserting? && CreateFits(w, pc, a) && PcAged(w.clock, pc)
    requires WellBuilt(w.rows) && Departed(w.rows, w.book.born, w.clock)
    ensures var t := CreateEffect(w, pc, a); WellBuilt(t.rows) && Departed(t.rows, t.book.born, w.clock)
  {
    if !a.fate.Fails? && Insertable(w.rows, pc.id, pc.m) {
      StoredKeepsAged(w.rows, w.book.born, w.clock, w.cfg.grain, pc.id, pc.m);
    }
  }

  lemma CreateMovesAged(w: World, pc: Pc, a: Action)
    requires CreatePc(pc) && CreateFits(w, pc, a) && PcAged(w.clock, pc)
    ensures var next := CreateMove(w, pc, a); next.Some? ==> PcAged(w.clock, next.value)
    ensures !pc.Inserting? ==> CreateEffect(w, pc, a).rows == w.rows && CreateEffect(w, pc, a).book.born == w.book.born
  {
  }

  lemma CreateKeepsAged(w: World, c: Client, a: Action)
    requires Aged(w) && c in w.pcs && CreatePc(w.pcs[c]) && CreateFits(w, w.pcs[c], a)
    ensures Aged(Shift(CreateEffect(w, w.pcs[c], a), c, CreateMove(w, w.pcs[c], a)))
  {
    var pc := w.pcs[c];
    assert PcAged(w.clock, pc);
    CreateFrame(w, pc, a);
    CreateMovesAged(w, pc, a);
    if pc.Inserting? {
      InsertKeepsAged(w, pc, a);
    }
    ShiftKeepsAged(w, CreateEffect(w, pc, a), c, CreateMove(w, pc, a));
  }

  // --- The others --------------------------------------------------------------------------

  /** Rows that stay keep their dates, and none comes or goes. */
  predicate SameDates(rows: Table, after: Table) {
    && after.Keys == rows.Keys
    && forall id :: id in rows ==>
         && after[id].createdAt == rows[id].createdAt && after[id].expiresAt == rows[id].expiresAt
         && after[id].ttlSeconds == rows[id].ttlSeconds
  }

  lemma SameDatesAreAged(rows: Table, after: Table, born: map<Id, int>, clock: int)
    requires WellBuilt(rows) && Departed(rows, born, clock) && SameDates(rows, after)
    ensures WellBuilt(after) && Departed(after, born, clock)
  {
  }

  lemma DeleteKeepsAged(w: World, c: Client, a: Action)
    requires Aged(w) && c in w.pcs && DeletePc(w.pcs[c]) && DeleteFits(w.pcs[c], a)
    ensures Aged(Shift(DeleteEffect(w, w.pcs[c], a), c, DeleteMove(w, w.pcs[c], a)))
  {
    var pc, t := w.pcs[c], DeleteEffect(w, w.pcs[c], a);
    DeleteFrame(w, pc, a);
    assert SameDates(w.rows, t.rows);
    SameDatesAreAged(w.rows, t.rows, w.book.born, w.clock);
    ShiftKeepsAged(w, t, c, DeleteMove(w, pc, a));
  }

  lemma ReadKeepsAged(w: World, c: Client, a: Action)
    requires Aged(w) && c in w.pcs && ReadPc(w.pcs[c]) && ReadFits(w, w.pcs[c], a)
    ensures Aged(Shift(ReadEffect(w, w.pcs[c], a), c, ReadMove(w, w.pcs[c], a)))
  {
    var pc, t := w.pcs[c], ReadEffect(w, w.pcs[c], a);
    ReadFrame(w, pc, a);
    ReadStaysRead(w, pc, a);
    assert SameDates(w.rows, t.rows);
    SameDatesAreAged(w.rows, t.rows, w.book.born, w.clock);
    ShiftKeepsAged(w, t, c, ReadMove(w, pc, a));
  }

  /** Retention is at least a day and lifetimes at most one, so what any purge removes has
      expired by the instant the pass began. */
  lemma PurgedHadExpired(rows: Table, now: int, cfg: SweepConfig, id: Id)
    requires WellBuilt(rows) && cfg.retentionDays >= 1 && id in rows && id !in PurgeRows(rows, now, cfg)
    ensures rows[id].expiresAt <= now
  {
    assert rows[id].createdAt < Cutoff(now, cfg.retentionDays);
    assert rows[id].ttlSeconds * SECOND <= DAY <= cfg.retentionDays * DAY;
  }

  lemma PurgeKeepsAged(w: World, now: int, cfg: SweepConfig, fate: Fate)
    requires Reads.RowsGenuine(w.book, w.rows) && WellBuilt(w.rows) && Departed(w.rows, w.book.born, w.clock)
    requires now <= w.clock && cfg.retentionDays >= 1
    ensures var t := PurgeEffect(w, now, cfg, fate); WellBuilt(t.rows) && Departed(t.rows, w.book.born, w.clock)
  {
    var kept := PurgeRows(w.rows, now, cfg);
    PurgedWithin(w.rows, now, cfg);
    KeepRowsFrame(w, kept, fate.Lands?);
    forall id | id in w.rows && id !in kept ensures w.book.born[id] <= w.clock {
      PurgedHadExpired(w.rows, now, cfg, id);
    }
  }

  lemma SweepMovesAged(w: World, pc: Pc, a: Action)
    requires SweepPc(pc) && SweepFits(pc, a) && PcAged(w.clock, pc)
    ensures var next := SweepMove(w, pc, a); next.Some? ==> PcAged(w.clock, next.value)
  {
    SweepStaysSweep(w, pc, a);
  }

  lemma SweepKeepsAged(w: World, c: Client, a: Action)
    requires Reads.Genuine(w) && Aged(w) && c in w.pcs && SweepPc(w.pcs[c]) && SweepFits(w.pcs[c], a)
    ensures Aged(Shift(SweepEffect(w, w.pcs[c], a), c, SweepMove(w, w.pcs[c], a)))
  {
    var pc, t := w.pcs[c], SweepEffect(w, w.pcs[c], a);
    assert PcAged(w.clock, pc);
    SweepFrame(w, pc, a);
    SweepMovesAged(w, pc, a);
    if pc.Purging? {
      PurgeKeepsAged(w, pc.now, pc.cfg, a.fate);
    } else {
      assert SameDates(w.rows, t.rows);
      SameDatesAreAged(w.rows, t.rows, w.book.born, w.clock);
    }
    ShiftKeepsAged(w, t, c, SweepMove(w, pc, a));
  }

  // --- Every run ---------------------------------------------------------------------------

  lemma StartKeepsAged(w: World, c: Client, a: Action)
    requires Aged(w) && StartFits(w, a)
    ensures Aged(Shift(StartEffect(w, a), c, Some(StartPc(w, a))))
  {
    StartFrame(w, a);
    ShiftKeepsAged(w, StartEffect(w, a), c, Some(StartPc(w, a)));
  }

  lemma ActKeepsAged(w: World, c: Client, a: Action)
    requires Reads.Genuine(w) && Aged(w) && c in w.pcs && Fits(w, w.pcs[c], a)
    ensures Aged(Shift(Effect(w, w.pcs[c], a), c, Move(w, w.pcs[c], a)))
  {
    var pc := w.pcs[c];
    if a.Crash? {
      ShiftKeepsAged(w, Effect(w, pc, a), c, None);
    } else if CreatePc(pc) {
      CreateKeepsAged(w, c, a);
    } else if DeletePc(pc) {
      DeleteKeepsAged(w, c, a);
    } else if SweepPc(pc) {
      SweepKeepsAged(w, c, a);
    } else {
      ReadKeepsAged(w, c, a);
    }
  }

  lemma StepKeepsAged(w: World, step: Step)
    requires Reads.Genuine(w) && Aged(w)
    ensures Aged(Next(w, step))
  {
    match step
    case Do(c, a) =>
      if c !in w.pcs {
        if StartFits(w, a) {
          StartKeepsAged(w, c, a);
        }
      } else if Fits(w, w.pcs[c], a) {
        ActKeepsAged(w, c, a);
      }
    case _ =>
  }

  lemma {:induction false} RunKeepsAged(cfg: Config, clock: int, steps: seq<Step>)
    ensures Aged(Run(Initial(cfg, clock), steps))
  {
    if steps != [] {
      var before := steps[..|steps| - 1];
      RunKeepsAged(cfg, clock, before);
      Reads.RunKeepsGenuine(cfg, clock, before);
      StepKeepsAged(Run(Initial(cfg, clock), before), steps[|steps| - 1]);
    }
  }

  /** On every table a run can reach, whenever the fallback purge runs it deletes exactly what
      the completed-only purge would. */
  lemma FallbackOnReachableTables(cfg: Config, clock: int, steps: seq<Step>, now: int, batch: nat, days: int,
                                  failing: set<Id>)
    requires days >= 1
    ensures var rows := Run(Initial(cfg, clock), steps).rows;
            !RetryPending(ListExpiredUnaudited(rows, now, batch), batch, failing) ==>
              Pass(rows, now, SweepConfig(batch, days, false), failing)
                == Pass(rows, now, SweepConfig(batch, days, true), failing)
  {
    RunKeepsAged(cfg, clock, steps);
    var rows := Run(Initial(cfg, clock), steps).rows;
    if !RetryPending(ListExpiredUnaudited(rows, now, batch), batch, failing) {
      FallbackDeletesOnlyCompleted(rows, now, batch, days, failing);
    }
  }
}
